/**
 * What the session does with the dependency tree (lib/nghttp2_session.c): streams that come and go, and
 * streams that get a new priority.
 */
module DepSession {
  import opened Bytes
  import opened DepLinks
  import opened DepQueues
  import opened DepWeights
  import opened DepTree
  import opened QueueHistory
  import opened DepSchedule
  import S = Scheduler
  import opened FrameHeader

  // ---- one tree ---------------------------------------------------------------------

  /** Following parents from any stream leads to the root. */
  lemma {:induction false} OneTree(t: Tree, kids: Kids, rank: Ranks, n: Id)
    requires ValidBut(t, kids, rank, {}) && n in kids
    ensures n in t.links.depPrev && Ranked(t.links.depPrev, rank) && Above(t.links.depPrev, rank, ROOT, n)
    decreases if n in rank then rank[n] else 0
  {
    hide ValidBut, Shape, Weights, Queues;
    ValidFacts(t, kids, rank, {});
    if n != ROOT { OneTree(t, kids, rank, t.links.depPrev[n].value); }
  }

  /** The root's queue is empty exactly when no stream has anything to send. */
  lemma RootQueue(t: Tree, kids: Kids, rank: Ranks)
    requires ValidBut(t, kids, rank, {})
    ensures ROOT in t.flags.obq && ROOT in rank && (t.flags.obq[ROOT] == {} <==> t.Active() == {})
  {
    hide ValidBut, Shape, Weights, Queues, Ranked, Above;
    ValidFacts(t, kids, rank, {});
    ItemFacts(t, kids, rank);
    RankKeys(t.links.depPrev, rank);
    QueueIffActiveBelow(t.links.depPrev, rank, t.Active(), t.flags, ROOT);
    forall m | m in t.Active() ensures m in t.links.depPrev && m != ROOT && Above(t.links.depPrev, rank, ROOT, m) {
      OneTree(t, kids, rank, m);
    }
  }

  // ---- ancestors after a cut -----------------------------------------------------------

  lemma {:induction false} CutAbove(dp: Parents, rank: Ranks, x: Id, a: Id, n: Id)
    requires Ranked(dp, rank) && x in dp && n in dp
    ensures Ranked(dp[x := None], rank)
    ensures Above(dp[x := None], rank, a, n) ==> Above(dp, rank, a, n)
    decreases rank[n]
  {
    CutRanked(dp, rank, x);
    if n != a && n != x && dp[n].Some? { CutAbove(dp, rank, x, a, dp[n].value); }
  }

  /** A stream taken out may go under any stream it was not above. */
  lemma MayGoUnder(dp: Parents, rank: Ranks, s: Id, dep: Id)
    requires Ranked(dp, rank) && s in dp && dep in dp && !Above(dp, rank, s, dep)
    ensures Ranked(dp[s := None], rank) && !Above(dp[s := None], rank, s, dep)
  {
    CutAbove(dp, rank, s, s, dep);
  }

  /** A stream taken out may go under the parent of one of its ancestors. */
  lemma MayGoAbove(dp: Parents, rank: Ranks, s: Id, dep: Id)
    requires Ranked(dp, rank) && s in dp && dep in dp && dp[s].Some? && Above(dp, rank, s, dep)
    ensures Ranked(dp[dep := None], rank) && dp[s].value in dp && !Above(dp[dep := None], rank, dep, dp[s].value)
    ensures dp[s].value != dep
  {
    CutRanked(dp, rank, dep);
    AboveRank(dp, rank, s, dep);
    var p := dp[s].value;
    if Above(dp[dep := None], rank, dep, p) { AboveRank(dp[dep := None], rank, dep, p); }
  }

  /** A stream may go under its own sibling. */
  lemma SiblingNotBelow(dp: Parents, rank: Ranks, s: Id, dep: Id)
    requires Ranked(dp, rank) && s in dp && dep in dp && dp[s].Some? && dp[dep] == dp[s] && s != dep
    ensures !Above(dp, rank, s, dep)
  {
    var p := dp[s].value;
    if Above(dp, rank, s, dep) { AboveRank(dp, rank, s, p); }
  }

  // ---- weights ---------------------------------------------------------------------------

  /** A stream in no list may get a new weight. */
  lemma ReweighLoose(t: Tree, kids: Kids, rank: Ranks, s: Id, w: int)
    requires ValidBut(t, kids, rank, {s}) && s in kids && s != ROOT && 1 <= w <= MAX_WEIGHT
    ensures ValidBut(t.(weight := t.weight[s := w]), kids, rank, {s})
  {
    hide ValidBut, Shape, Weights, Queues, Ranked, Rooted, Chain;
    ValidParts(t, kids, rank, {s});
    LooseStream(t, s);
    forall n | n in kids ensures s !in kids[n] { KidsOf(t.links, kids, n); }
    WeightsSet(t.weight, t.sumDep, kids, s, w);
    SameRooted(t, t.(weight := t.weight[s := w]), {s});
    Assemble(t, kids, rank, {s}, t.(weight := t.weight[s := w]), kids, rank, {s});
  }

  lemma SameRooted(t: Tree, t': Tree, loose: set<Id>)
    requires Rooted(t, loose) && t'.links == t.links
    ensures Rooted(t', loose)
  {
  }

  lemma ReweighWeights(t: Tree, kids: Kids, rank: Ranks, s: Id, w: int, p: Id)
    requires ValidBut(t, kids, rank, {}) && s in kids && s != ROOT && 1 <= w <= MAX_WEIGHT
    requires s in t.links.depPrev && t.links.depPrev[s] == Some(p)
    ensures p in t.sumDep && s in t.weight
    ensures Weights(t.weight[s := w], t.sumDep[p := t.sumDep[p] + w - t.weight[s]], kids)
  {
    hide ValidBut, Shape, Weights, Queues, Ranked, Rooted, Chain;
    ValidParts(t, kids, rank, {});
    ListedOf(t.links, kids, s);
    var i :| 0 <= i < |kids[p]| && kids[p][i] == s;
    forall n | n in kids && n != p ensures s !in kids[n] { KidsOf(t.links, kids, n); }
    DistinctKids(t.links, kids, p);
    WeightsChange(t.weight, t.sumDep, kids, p, i, w);
  }

  lemma ReweighValid(t: Tree, kids: Kids, rank: Ranks, s: Id, w: int, p: Id)
    requires ValidBut(t, kids, rank, {}) && s in kids && s != ROOT && 1 <= w <= MAX_WEIGHT
    requires s in t.links.depPrev && t.links.depPrev[s] == Some(p)
    ensures p in t.sumDep && s in t.weight
    ensures ValidBut(t.(weight := t.weight[s := w], sumDep := t.sumDep[p := t.sumDep[p] + w - t.weight[s]]),
                         kids, rank, {})
  {
    hide ValidBut, Shape, Weights, Queues, Ranked, Rooted;
    ValidParts(t, kids, rank, {});
    ReweighWeights(t, kids, rank, s, w, p);
    var t' := t.(weight := t.weight[s := w], sumDep := t.sumDep[p := t.sumDep[p] + w - t.weight[s]]);
    SameRooted(t, t', {});
    Assemble(t, kids, rank, {}, t', kids, rank, {});
  }

  // ---- streams come and go ------------------------------------------------------------------

  /** nghttp2_stream_init: a stream with no links. */
  function WithStream(t: Tree, id: Id, w: int): Tree
  {
    t.(links := Links(t.links.depPrev[id := None], t.links.depNext[id := None],
                      t.links.sibPrev[id := None], t.links.sibNext[id := None]),
       weight := t.weight[id := w], sumDep := t.sumDep[id := 0],
       flags := t.flags.(obq := t.flags.obq[id := {}]),
       deferFlow := t.deferFlow - {id}, deferUser := t.deferUser - {id})
  }

  function WithoutStream(t: Tree, id: Id): Tree
  {
    t.(links := Links(t.links.depPrev - {id}, t.links.depNext - {id}, t.links.sibPrev - {id}, t.links.sibNext - {id}),
       weight := t.weight - {id}, sumDep := t.sumDep - {id},
       flags := t.flags.(obq := t.flags.obq - {id}), item := t.item - {id})
  }

  lemma NewShape(l: Links, kids: Kids, id: Id)
    requires Shape(l, kids) && id !in kids
    ensures Shape(Links(l.depPrev[id := None], l.depNext[id := None], l.sibPrev[id := None], l.sibNext[id := None]),
                  kids[id := []])
  {
    hide Chain;
    var l' := Links(l.depPrev[id := None], l.depNext[id := None], l.sibPrev[id := None], l.sibNext[id := None]);
    var kids' := kids[id := []];
    forall n | n in kids' ensures Chain(l', n, kids'[n]) {
      if n == id { EmptyChain(l', id); } else {
        KidsOf(l, kids, n);
        ChainFrame(l, l', n, kids[n]) by { ChainHead(l, kids, n); }
      }
    }
    forall c | c in kids' ensures Listed(l', kids', c) {
      if c != id { assert Listed(l, kids, c); }
    }
  }

  lemma EmptyChain(l: Links, n: Id)
    requires n in l.depNext && l.depNext[n] == None
    ensures Chain(l, n, [])
  {
  }

  lemma ChainHead(l: Links, kids: Kids, n: Id)
    requires Shape(l, kids) && n in kids
    ensures n in l.depNext && Chain(l, n, kids[n])
  {
  }

  lemma NewQueues(dp: Parents, rank: Ranks, active: set<Id>, f: Flags, id: Id)
    requires Ranked(dp, rank) && Queues(dp, active, f) && id !in dp
    ensures Ranked(dp[id := None], rank[id := 0])
    ensures Queues(dp[id := None], active, f.(obq := f.obq[id := {}]))
  {
    var dp', f' := dp[id := None], f.(obq := f.obq[id := {}]);
    forall n | n in dp' ensures NodeOk(dp', active, f', n) {
      if n != id { assert NodeOk(dp, active, f, n); }
    }
  }

  lemma NewWeights(w: WeightMap, sum: WeightMap, kids: Kids, id: Id, x: int)
    requires Weights(w, sum, kids) && id !in kids && 1 <= x <= MAX_WEIGHT
    requires forall n, c :: n in kids && c in kids[n] ==> c in kids
    ensures Weights(w[id := x], sum[id := 0], kids[id := []])
  {
    forall n | n in kids ensures Sum(w[id := x], kids[n]) == sum[n] { SumFrame(w, w[id := x], kids[n]); }
  }

  lemma NewTreeWeights(t: Tree, kids: Kids, id: Id, x: int)
    requires Shape(t.links, kids) && Weights(t.weight, t.sumDep, kids) && id !in kids && 1 <= x <= MAX_WEIGHT
    ensures Weights(t.weight[id := x], t.sumDep[id := 0], kids[id := []])
  {
    hide Shape, Chain, Weights;
    forall n, c | n in kids && c in kids[n] ensures c in kids { KidsOf(t.links, kids, n); }
    NewWeights(t.weight, t.sumDep, kids, id, x);
  }

  lemma Build(t: Tree, kids: Kids, rank: Ranks, loose: set<Id>)
    requires Shape(t.links, kids) && Ranked(t.links.depPrev, rank) && Weights(t.weight, t.sumDep, kids)
    requires Queues(t.links.depPrev, t.Active(), t.flags) && Rooted(t, loose)
    requires ROOT in t.links.depPrev && t.links.depPrev[ROOT] == None && ROOT !in t.item && t.item <= kids.Keys
    ensures ValidBut(t, kids, rank, loose)
  {
    hide Shape, Weights, Queues, Ranked, Rooted;
    ShapeKeys(t.links, kids);
    QueueKeys(t.links.depPrev, t.Active(), t.flags);
  }

  lemma NewRooted(t: Tree, t': Tree, id: Id)
    requires Rooted(t, {}) && id != ROOT && id !in t.links.depPrev
    requires t'.links.depPrev == t.links.depPrev[id := None]
    ensures Rooted(t', {id})
  {
  }

  /** A stream just created hangs nowhere and disturbs nothing. */
  lemma NewValid(t: Tree, kids: Kids, rank: Ranks, id: Id, w: int)
    requires ValidBut(t, kids, rank, {}) && id !in kids && 1 <= w <= MAX_WEIGHT
    ensures ValidBut(WithStream(t, id, w), kids[id := []], rank[id := 0], {id})
    ensures id !in t.item
  {
    hide ValidBut, Shape, Weights, Queues, Ranked, Rooted;
    ValidParts(t, kids, rank, {});
    ItemFacts(t, kids, rank);
    NewShape(t.links, kids, id);
    NewTreeWeights(t, kids, id, w);
    NewQueues(t.links.depPrev, rank, t.Active(), t.flags, id);
    var t' := WithStream(t, id, w);
    NewRooted(t, t', id);
    assert t'.Active() == t.Active();
    Build(t', kids[id := []], rank[id := 0], {id});
  }

  lemma DropShape(l: Links, kids: Kids, id: Id)
    requires Shape(l, kids) && id in kids && kids[id] == [] && l.depPrev[id] == None
    ensures Shape(Links(l.depPrev - {id}, l.depNext - {id}, l.sibPrev - {id}, l.sibNext - {id}), kids - {id})
  {
    hide Chain;
    var l' := Links(l.depPrev - {id}, l.depNext - {id}, l.sibPrev - {id}, l.sibNext - {id});
    var kids' := kids - {id};
    forall n | n in kids' ensures Chain(l', n, kids'[n]) {
      KidsOf(l, kids, n);
      ChainFrame(l, l', n, kids[n]) by { ChainHead(l, kids, n); }
    }
    forall c | c in kids' ensures Listed(l', kids', c) { assert Listed(l, kids, c); }
  }

  lemma DropRanked(dp: Parents, rank: Ranks, id: Id)
    requires Ranked(dp, rank) && id in dp && forall c :: c in dp ==> dp[c] != Some(id)
    ensures Ranked(dp - {id}, rank - {id})
  {
  }

  lemma DropQueues(dp: Parents, active: set<Id>, f: Flags, id: Id)
    requires Queues(dp, active, f) && id in dp && dp[id] == None
    ensures Queues(dp - {id}, active - {id}, f.(obq := f.obq - {id}))
  {
    var dp', f' := dp - {id}, f.(obq := f.obq - {id});
    assert NodeOk(dp, active, f, id);
    assert Exact(dp', f');
    forall n | n in dp' ensures NodeOk(dp', active - {id}, f', n) { assert NodeOk(dp, active, f, n); }
  }

  lemma DropWeights(w: WeightMap, sum: WeightMap, kids: Kids, id: Id)
    requires Weights(w, sum, kids) && id in kids && forall n :: n in kids ==> id !in kids[n]
    ensures Weights(w - {id}, sum - {id}, kids - {id})
  {
    forall n | n in kids ensures Sum(w - {id}, kids[n]) == sum[n] { SumFrame(w, w - {id}, kids[n]); }
  }

  lemma LooseLeaf(t: Tree, kids: Kids, rank: Ranks, id: Id)
    requires ValidBut(t, kids, rank, {id}) && id in kids && id != ROOT && kids[id] == []
    ensures t.links.depPrev.Keys == kids.Keys
    ensures forall c :: c in kids ==> t.links.depPrev[c] != Some(id)
    ensures forall n :: n in kids ==> id !in kids[n]
  {
    hide ValidBut, Shape, Weights, Queues, Ranked, Rooted, Chain;
    ValidParts(t, kids, rank, {id});
    LooseStream(t, id);
    forall c | c in kids ensures t.links.depPrev[c] != Some(id) { ListedOf(t.links, kids, c); }
    forall n | n in kids ensures id !in kids[n] { KidsOf(t.links, kids, n); }
  }

  lemma LooseItems(t: Tree, kids: Kids, rank: Ranks, loose: set<Id>)
    requires ValidBut(t, kids, rank, loose)
    ensures t.item <= kids.Keys && ROOT !in t.item
  {
  }

  lemma DropRooted(t: Tree, t': Tree, id: Id)
    requires Rooted(t, {id}) && t'.links.depPrev == t.links.depPrev - {id}
    ensures Rooted(t', {})
  {
  }

  /** A stream that hangs nowhere and has no children may be freed. */
  lemma DropValid(t: Tree, kids: Kids, rank: Ranks, id: Id)
    requires ValidBut(t, kids, rank, {id}) && id in kids && id != ROOT && kids[id] == []
    ensures ValidBut(WithoutStream(t, id), kids - {id}, rank - {id}, {})
  {
    hide ValidBut, Shape, Weights, Queues, Ranked, Rooted;
    ValidParts(t, kids, rank, {id});
    LooseStream(t, id);
    LooseLeaf(t, kids, rank, id);
    DropShape(t.links, kids, id);
    DropWeights(t.weight, t.sumDep, kids, id);
    DropRanked(t.links.depPrev, rank, id);
    DropQueues(t.links.depPrev, t.Active(), t.flags, id);
    var t' := WithoutStream(t, id);
    DropRooted(t, t', id);
    LooseItems(t, kids, rank, {id});
    assert t'.Active() == t.Active() - {id};
    Build(t', kids - {id}, rank - {id}, {});
  }

  // ---- reprioritisation ------------------------------------------------------------------

  /**
   * The parent of `n` after `s` went under `dep`: if `dep` was below `s` it first takes the place of `s`, and
   * an exclusive dependency takes the other children of `dep` under `s` (section 5.3.3 of RFC 7540).
   */
  function NewParent(dp: Parents, s: Id, dep: Id, exclusive: bool, below: bool, n: Id): Ref
    requires s in dp && n in dp
  {
    if n == s then Some(dep)
    else
      var q := if below && n == dep then dp[s] else dp[n];
      if exclusive && q == Some(dep) then Some(s) else q
  }

  /** `t` is a tree from which `x` has been taken out, and `x` may go under `dep`. */
  lemma AdoptableAfterCut(t: Tree, kids: Kids, rank: Ranks, before: Parents, dep: Id, x: Id)
    requires ValidBut(t, kids, rank, {x}) && dep in kids && x in kids && x != ROOT && dep != x
    requires x in before && t.links.depPrev == before[x := None] && Ranked(before, rank) && dep in before
    requires Ranked(before[x := None], rank) && !Above(before[x := None], rank, x, dep)
    ensures Adoptable(t, kids, rank, dep, x)
  {
    hide ValidBut, Ranked, Above;
    ValidParts(t, kids, rank, {x});
  }

  lemma AdoptableReweighed(t: Tree, kids: Kids, rank: Ranks, dep: Id, s: Id, w: int)
    requires Adoptable(t, kids, rank, dep, s) && 1 <= w <= MAX_WEIGHT
    ensures Adoptable(t.(weight := t.weight[s := w]), kids, rank, dep, s)
  {
    hide ValidBut, Ranked, Above;
    ReweighLoose(t, kids, rank, s, w);
  }

  lemma {:induction false} RootHasNoAncestor(t: Tree, kids: Kids, rank: Ranks, s: Id)
    requires ValidBut(t, kids, rank, {}) && s in kids && s != ROOT
    ensures ROOT in t.links.depPrev && Ranked(t.links.depPrev, rank) && !Above(t.links.depPrev, rank, s, ROOT)
  {
    hide ValidBut, Ranked, Shape, Weights, Queues;
    ValidParts(t, kids, rank, {});
  }

  /** The parents after nghttp2_stream_dep_insert_subtree. */
  lemma InsertedParents(t: Tree, kids: Kids, rank: Ranks, dep: Id, s: Id, n: Id)
    requires Adoptable(t, kids, rank, dep, s) && n in kids
    ensures n in t.links.depPrev
    ensures var dp' := InsertLinks(t.links, dep, s, kids[s], kids[dep]).depPrev;
            n in dp' && dp'[n] == if n == s then Some(dep) else if t.links.depPrev[n] == Some(dep) then Some(s)
                                  else t.links.depPrev[n]
  {
    hide ValidBut, Ranked, Above, Shape;
    ValidParts(t, kids, rank, {s});
    KidsOf(t.links, kids, dep);
    ListedOf(t.links, kids, n);
  }

  lemma AddedParents(l: Links, dep: Id, s: Id)
    requires dep in l.depNext
    ensures AddLinks(l, dep, s).depPrev == l.depPrev[s := Some(dep)]
  {
  }

  lemma LiftFacts(t: Tree, kids: Kids, rank: Ranks, before: Parents, up: Id, dep: Id)
    requires ValidBut(t, kids, rank, {dep}) && dep in before && t.links.depPrev == before[dep := None] && up in kids
    ensures up in t.links.depNext
  {
    hide ValidBut, Queues, Ranked, Weights;
    ValidParts(t, kids, rank, {dep});
    ShapeKeys(t.links, kids);
  }

  lemma StreamFacts(t: Tree, kids: Kids, rank: Ranks, s: Id)
    requires ValidBut(t, kids, rank, {}) && s in kids
    ensures Ranked(t.links.depPrev, rank) && t.links.depPrev.Keys == kids.Keys
    ensures s in t.links.depPrev && s in t.weight
    ensures s != ROOT ==>
              t.links.depPrev[s].Some? && t.links.depPrev[s].value in kids && t.links.depPrev[s].value in t.sumDep
  {
    hide ValidBut, Shape, Weights, Queues;
    ValidFacts(t, kids, rank, {});
  }

  /** The stream `s`, taken out of a tree with parents `before`, goes under `dep`. */
  lemma PlacedParents(t: Tree, kids: Kids, rank: Ranks, before: Parents, dep: Id, s: Id, exclusive: bool, n: Id)
    requires Adoptable(t, kids, rank, dep, s) && n in kids && s in before && n in before
    requires t.links.depPrev == before[s := None]
    ensures dep in t.links.depNext
    ensures var l' := if exclusive then InsertLinks(t.links, dep, s, kids[s], kids[dep]) else AddLinks(t.links, dep, s);
            n in l'.depPrev && l'.depPrev[n] == NewParent(before, s, dep, exclusive, false, n)
  {
    hide ValidBut, Ranked, Above, InsertLinks, AddLinks;
    AdoptFacts(t, kids, rank, dep, s);
    InsertedParents(t, kids, rank, dep, s, n);
    AddedParents(t.links, dep, s);
  }

  /** Lifting `dep` first makes the two ways to write the new parents agree. */
  lemma LiftedParents(dp: Parents, rank: Ranks, s: Id, dep: Id, exclusive: bool, below: bool, n: Id)
    requires Ranked(dp, rank) && s in dp && dep in dp && s != dep && n in dp && below == Above(dp, rank, s, dep)
    ensures var lifted := if below then dp[dep := dp[s]] else dp;
            NewParent(lifted, s, dep, exclusive, false, n) == NewParent(dp, s, dep, exclusive, below, n)
  {
  }

  /** With the parent unchanged and not exclusive, every parent stays. */
  lemma SameParents(dp: Parents, s: Id, dep: Id, n: Id)
    requires s in dp && n in dp && dp[s] == Some(dep)
    ensures NewParent(dp, s, dep, false, false, n) == dp[n]
  {
  }

  // ---- opening and destroying ------------------------------------------------------------

  const DEFAULT_PRI := PriSpec(ROOT, DEFAULT_WEIGHT, false)

  /** The parents once `id` has left, its children having gone to its parent. */
  function ParentsWithout(dp: Parents, id: Id): Parents
  {
    if id in dp then map n | n in dp && n != id :: if dp[n] == Some(id) then dp[id] else dp[n] else dp
  }

  /** The parents once the new stream `id` hangs under `dep`. */
  function ParentsWith(dp: Parents, id: Id, dep: Id, exclusive: bool): Parents
  {
    (map n | n in dp :: if exclusive && dp[n] == Some(dep) then Some(id) else dp[n])[id := Some(dep)]
  }

  lemma RemovedParents(t: Tree, kids: Kids, rank: Ranks, p: Id, i: nat, s: Id)
    requires ValidBut(t, kids, rank, {}) && s in kids && s != ROOT
    requires p in kids && i < |kids[p]| && kids[p][i] == s
    ensures ReplaceLinks(t.links, kids, p, i).depPrev - {s} == ParentsWithout(t.links.depPrev, s)
  {
    hide ValidBut, Ranked, Weights, Queues, Shape, Chain, HandedOver, ParentsWithout, ReplaceLinks;
    ValidParts(t, kids, rank, {});
    ReplaceParents(t.links, kids, p, i, s);
    KidsOf(t.links, kids, p);
    KidsOf(t.links, kids, s);
    var dp, m := t.links.depPrev, kids[s];
    forall n | n in dp ensures n in m <==> dp[n] == Some(s) { ListedOf(t.links, kids, n); }
    assert s in kids[p];
    HandedIsWithout(dp, m, p, s);
  }

  lemma HandedIsWithout(dp: Parents, m: seq<Id>, p: Id, s: Id)
    requires s in dp && dp[s] == Some(p) && forall n :: n in dp ==> (n in m <==> dp[n] == Some(s))
    ensures HandedOver(dp, m, |m|, p)[s := None] - {s} == ParentsWithout(dp, s)
  {
    assert m[..|m|] == m;
  }

  lemma NewLeaf(t: Tree, kids: Kids, rank: Ranks, id: Id, w: int, dep: Id)
    requires ValidBut(t, kids, rank, {}) && id !in kids && 1 <= w <= MAX_WEIGHT && dep in kids
    ensures Adoptable(WithStream(t, id, w), kids[id := []], rank[id := 0], dep, id)
    ensures id !in WithStream(t, id, w).Active()
    ensures id in WithStream(t, id, w).flags.obq && !Busy(t.Active(), WithStream(t, id, w).flags, id)
    ensures WithStream(t, id, w).Active() == t.Active()
  {
    hide ValidBut, Weights, Queues, Shape, Ranked;
    ValidParts(t, kids, rank, {});
    ItemFacts(t, kids, rank);
    NewValid(t, kids, rank, id, w);
    var t' := WithStream(t, id, w);
    ValidParts(t', kids[id := []], rank[id := 0], {id});
    NobodysAncestor(t.links.depPrev, rank, t'.links.depPrev, rank[id := 0], id, dep);
    assert t'.Active() == t.Active();
  }

  lemma {:induction false} NobodysAncestor(dp: Parents, rank: Ranks, dp': Parents, rank': Ranks, id: Id, n: Id)
    requires Ranked(dp, rank) && id !in dp && n in dp && dp' == dp[id := None] && rank' == rank[id := 0]
    requires Ranked(dp', rank')
    ensures !Above(dp', rank', id, n)
    decreases rank[n]
  {
    if dp[n].Some? { NobodysAncestor(dp, rank, dp', rank', id, dp[n].value); }
  }

  lemma ParentsWithAt(dp: Parents, id: Id, dep: Id, n: Id)
    requires id !in dp && (n in dp || n == id)
    ensures n in ParentsWith(dp, id, dep, true)
    ensures ParentsWith(dp, id, dep, true)[n]
            == if n == id then Some(dep) else if dp[id := None][n] == Some(dep) then Some(id) else dp[id := None][n]
  {
  }

  lemma ParentsWithAdd(dp: Parents, id: Id, dep: Id)
    requires id !in dp
    ensures ParentsWith(dp, id, dep, false) == dp[id := None][id := Some(dep)]
    ensures ParentsWith(dp, id, dep, true).Keys == dp.Keys + {id}
  {
  }

  lemma PlacedNew(t: Tree, kids: Kids, rank: Ranks, dp: Parents, dep: Id, id: Id, exclusive: bool)
    requires Adoptable(t, kids, rank, dep, id) && kids[id] == [] && t.links.depPrev == dp[id := None] && id !in dp
    ensures dep in t.links.depNext
    ensures (if exclusive then InsertLinks(t.links, dep, id, [], kids[dep]) else AddLinks(t.links, dep, id)).depPrev
            == ParentsWith(dp, id, dep, exclusive)
  {
    hide ValidBut, Ranked, Above, InsertLinks, AddLinks, Shape, ParentsWith, Adopted, AttachRanks;
    AdoptFacts(t, kids, rank, dep, id);
    ParentsWithAdd(dp, id, dep);
    if exclusive {
      var l' := InsertLinks(t.links, dep, id, kids[id], kids[dep]);
      InsertParents(t.links, dep, id, kids[id], kids[dep]);
      AdoptedRanked(t, kids, rank, dep, id, |kids[dep]|, Some(dep));
      var want := ParentsWith(dp, id, dep, true);
      forall n | n in kids ensures n in want && l'.depPrev[n] == want[n] {
        InsertedParents(t, kids, rank, dep, id, n);
        ParentsWithAt(dp, id, dep, n);
      }
      assert kids.Keys == want.Keys by { AdoptKeys(t, kids, rank, dep, id); }
      assert l'.depPrev == want;
    } else {
      AddedParents(t.links, dep, id);
    }
  }

  lemma AdoptKeys(t: Tree, kids: Kids, rank: Ranks, dep: Id, s: Id)
    requires Adoptable(t, kids, rank, dep, s)
    ensures t.links.depPrev.Keys == kids.Keys
  {
    hide ValidBut, Ranked, Above;
  }

  /** A stream that was just created under the root is below no other stream. */
  lemma NotBelowNew(dp: Parents, rank: Ranks, s: Id, dep: Id)
    requires Ranked(dp, rank) && s in dp && dep in dp && dp[dep] == Some(ROOT) && dp[ROOT] == None
    requires s != dep && s != ROOT
    ensures !Above(dp, rank, s, dep)
  {
  }

  lemma RemovedKids(kids: Kids, p: Id, i: nat, s: Id)
    requires p in kids && i < |kids[p]| && kids[p][i] == s && s in kids
    ensures s in ReplaceByKids(kids, p, i) && ReplaceByKids(kids, p, i)[s] == []
    ensures ReplaceByKids(kids, p, i).Keys == kids.Keys
  {
  }

  /** Every stream of the tree is in it by the source's test, as it has a parent or is the root. */
  lemma RootFacts(t: Tree, kids: Kids, rank: Ranks)
    requires ValidBut(t, kids, rank, {})
    ensures ROOT in kids && t.links.depPrev.Keys == kids.Keys == t.links.depNext.Keys
    ensures t.links.sibPrev.Keys == kids.Keys == t.links.sibNext.Keys
    ensures forall n :: n in kids && n != ROOT ==> t.links.depPrev[n].Some?
    ensures ROOT !in t.item
  {
    hide ValidBut, Ranked, Queues, Weights, Shape;
    ValidFacts(t, kids, rank, {});
  }

  lemma AbsentParents(dp: Parents, id: Id)
    ensures id !in dp ==> ParentsWithout(dp, id) == dp
  {
  }

  lemma ObqStep(t: Tree, kids: Kids, rank: Ranks, s: Id, c: Id)
    requires ValidBut(t, kids, rank, {}) && s in t.flags.obq && c in t.flags.obq[s]
    ensures c in t.flags.obq && c in rank && s in rank && rank[s] < rank[c] && c != ROOT
    ensures Busy(t.Active(), t.flags, c)
  {
    hide ValidBut, Weights, Shape;
    ValidParts(t, kids, rank, {});
    ObqKeys(t.links.depPrev, t.Active(), t.flags, s);
    ObqKeys(t.links.depPrev, t.Active(), t.flags, c);
  }

  lemma CreatedUnderRoot(dp: Parents, t: Tree, kids: Kids, rank: Ranks, s: Id, dep: Id)
    requires ValidBut(t, kids, rank, {}) && s in kids && s != ROOT && s != dep && dep in kids
    requires dep !in dp ==> t.links.depPrev == ParentsWith(dp, dep, ROOT, false)
    ensures s in t.links.depPrev && dep in t.links.depPrev && Ranked(t.links.depPrev, rank)
    ensures dep !in dp ==> !Above(t.links.depPrev, rank, s, dep)
  {
    hide ValidBut, Ranked, Queues, Weights, Shape, Above;
    ValidParts(t, kids, rank, {});
    if dep !in dp { NotBelowNew(t.links.depPrev, rank, s, dep); }
  }

  // ---- queues and scheduling ------------------------------------------------------------------

  lemma NotOwnParent(t: Tree, kids: Kids, rank: Ranks, s: Id)
    requires ValidBut(t, kids, rank, {}) && s in kids
    ensures s in t.links.depPrev && t.links.depPrev[s] != Some(s)
  {
    hide ValidBut, Weights, Shape, Queues;
    ValidParts(t, kids, rank, {});
  }

  /** A queued stream is in the queue of its parent, which is queued in turn. */
  lemma QueuedInParent(t: Tree, kids: Kids, rank: Ranks, s: Id)
    requires ValidBut(t, kids, rank, {}) && s in kids
    ensures s in t.links.depPrev
    ensures t.links.depPrev[s].Some? ==>
              var d := t.links.depPrev[s].value;
              && d in kids && d != s && d in t.flags.obq && d in t.links.depPrev
              && s in rank && d in rank && rank[d] < rank[s]
              && (s in t.flags.queued ==> s in t.flags.obq[d] && (t.links.depPrev[d].Some? ==> d in t.flags.queued))
  {
    hide ValidBut, Weights, Shape;
    ValidParts(t, kids, rank, {});
    if t.links.depPrev[s].Some? && s in t.flags.queued {
      var d := t.links.depPrev[s].value;
      assert s in t.flags.obq[d] && NodeOk(t.links.depPrev, t.Active(), t.flags, d);
    }
  }

  lemma KidsKeys(t: Tree, kids: Kids, rank: Ranks)
    requires ValidBut(t, kids, rank, {})
    ensures t.links.depPrev.Keys == kids.Keys == t.flags.obq.Keys == t.weight.Keys == rank.Keys
    ensures Ranked(t.links.depPrev, rank)
  {
    ValidParts(t, kids, rank, {});
    hide ValidBut, Weights, Shape, Queues;
  }

  lemma RootValid(t: Tree)
    requires var none: map<Id, Ref> := map[ROOT := None];
             t == Tree(Links(none, none, none, none), map[ROOT := DEFAULT_WEIGHT], map[ROOT := 0], {}, {}, {},
                       Flags({}, map[ROOT := {}]))
    ensures ValidBut(t, map[ROOT := []], map[ROOT := 0], {})
  {
  }

  /** The fields after nghttp2_stream_change_weight. */
  ghost predicate ReweighedTo(t: Tree, sc: Sched, s: Id, w: int, sc': Sched)
  {
    && s in t.weight && t.weight[s] > 0 && w > 0
    && if t.weight[s] == w || s !in t.flags.queued then sc' == sc
       else
         && s in t.links.depPrev && t.links.depPrev[s].Some? && t.links.depPrev[s].value in sc && s in sc
         && sc' == Reweighed(sc, t.weight, t.links.depPrev[s].value, s, w)
  }

  lemma ActiveFacts(t: Tree, kids: Kids, rank: Ranks, s: Id)
    requires ValidBut(t, kids, rank, {}) && s in t.Active()
    ensures s in kids && s in t.flags.queued
  {
    ItemFacts(t, kids, rank);
    ValidParts(t, kids, rank, {});
    hide ValidBut, Weights, Shape;
    assert NodeOk(t.links.depPrev, t.Active(), t.flags, s);
    assert s != ROOT;
  }

  lemma NoParentNotQueued(t: Tree, kids: Kids, rank: Ranks, s: Id)
    requires ValidBut(t, kids, rank, {}) && s in t.links.depPrev && t.links.depPrev[s].None?
    ensures s !in t.flags.queued
  {
    hide ValidBut, Weights, Shape, Ranked;
    ValidParts(t, kids, rank, {});
    NotQueued(t.links.depPrev, t.Active(), t.flags, s);
  }

  lemma LooseUnqueued(t: Tree, kids: Kids, rank: Ranks, s: Id)
    requires ValidBut(t, kids, rank, {s}) && s in kids && s != ROOT
    ensures s !in t.flags.queued && s in t.flags.obq
  {
    hide ValidBut, Weights, Shape, Ranked, Queues;
    ValidParts(t, kids, rank, {s});
    LooseStream(t, s);
    NotQueued(t.links.depPrev, t.Active(), t.flags, s);
  }

  lemma LooseNotQueued(t: Tree, kids: Kids, rank: Ranks, dep: Id, s: Id)
    requires Adoptable(t, kids, rank, dep, s)
    ensures s !in t.flags.queued && s in t.flags.obq
  {
    hide ValidBut, Ranked, Above;
    LooseUnqueued(t, kids, rank, s);
  }

  /** A way from the root through streams with nothing to send, always to the stream that is first in time. */
  ghost predicate Leads(t: Tree, hist: Histories, path: seq<Id>)
  {
    && path != [] && path[0] == ROOT
    && forall j :: 0 <= j < |path| - 1 ==> LeadsAt(t, hist, path[j], path[j + 1])
  }

  ghost predicate LeadsAt(t: Tree, hist: Histories, n: Id, c: Id)
  {
    && n in t.flags.obq && n !in t.Active() && c in t.flags.obq[n]
    && n in hist && FirstInTime(hist[n], c)
  }

  lemma LeadsStart(t: Tree, hist: Histories, path: seq<Id>)
    requires Leads(t, hist, path)
    ensures path != [] && path[0] == ROOT
  {
  }

  lemma LeadsFurther(t: Tree, hist: Histories, path: seq<Id>, c: Id)
    requires Leads(t, hist, path) && LeadsAt(t, hist, path[|path| - 1], c)
    ensures Leads(t, hist, path + [c])
  {
    hide LeadsAt;
    var more := path + [c];
    forall j | 0 <= j < |more| - 1 ensures LeadsAt(t, hist, more[j], more[j + 1]) {
      if j < |path| - 1 { assert LeadsAt(t, hist, path[j], path[j + 1]); }
    }
  }

  /** The way follows the parents, so that no stream occurs twice. */
  lemma {:induction false} PathFacts(t: Tree, kids: Kids, rank: Ranks, hist: Histories, path: seq<Id>)
    requires ValidBut(t, kids, rank, {}) && Leads(t, hist, path)
    ensures forall x :: x in path ==> x in kids && x in t.links.depPrev && x in rank
    ensures forall j :: 0 < j < |path| ==> t.links.depPrev[path[j]] == Some(path[j - 1])
    ensures t.links.depPrev[ROOT] == None
    ensures forall i, j :: 0 <= i < j < |path| ==> rank[path[i]] < rank[path[j]]
    decreases |path|
  {
    hide ValidBut, Weights, Shape, FirstInTime;
    ValidParts(t, kids, rank, {});
    if |path| > 1 {
      var last := |path| - 1;
      var rest := path[..last];
      assert Leads(t, hist, rest) by {
        forall j | 0 <= j < |rest| - 1 ensures LeadsAt(t, hist, rest[j], rest[j + 1]) {
          assert LeadsAt(t, hist, path[j], path[j + 1]);
        }
      }
      PathFacts(t, kids, rank, hist, rest);
      assert LeadsAt(t, hist, path[last - 1], path[last]);
      assert path == rest + [path[last]];
    }
  }

  /** The bases of the queues from the `i`th on have been set. */
  ghost predicate OnWay(t: Tree, sc0: Sched, sc: Sched, hist0: Histories, hist: Histories, path: seq<Id>, i: nat)
  {
    && Leads(t, hist0, path) && i < |path| && Chosen(sc0, sc, path[i..]) && hist.Keys == hist0.Keys
    && forall j :: 0 <= j < i ==> path[j] in hist && hist[path[j]] == hist0[path[j]]
  }

  lemma WayStart(t: Tree, kids: Kids, rank: Ranks, sc: Sched, hist: Histories, path: seq<Id>)
    requires ValidBut(t, kids, rank, {}) && Leads(t, hist, path) && Scheduled(t.flags, t.weight, sc, hist)
    ensures path != [] && OnWay(t, sc, sc, hist, hist, path, |path| - 1)
    ensures path[|path| - 1] in t.links.depPrev
    ensures |path| > 1 <==> t.links.depPrev[path[|path| - 1]].Some?
  {
    hide ValidBut, Scheduled, Chosen, LeadsAt;
    PathFacts(t, kids, rank, hist, path);
    KidsKeys(t, kids, rank);
    ScheduledKeys(t.flags, t.weight, sc, hist);
    ChosenNone(sc, path);
    PathParent(t, path, |path| - 1);
  }

  lemma PathParent(t: Tree, path: seq<Id>, i: nat)
    requires i < |path| && path[0] == ROOT && forall x :: x in path ==> x in t.links.depPrev
    requires t.links.depPrev[ROOT] == None
    requires forall j :: 0 < j < |path| ==> t.links.depPrev[path[j]] == Some(path[j - 1])
    ensures i > 0 <==> t.links.depPrev[path[i]].Some?
  {
    if i > 0 { assert t.links.depPrev[path[i]] == Some(path[i - 1]); } else { assert path[i] == ROOT; }
  }

  lemma WayEnd(t: Tree, sc0: Sched, sc: Sched, hist0: Histories, hist: Histories, path: seq<Id>)
    requires OnWay(t, sc0, sc, hist0, hist, path, 0)
    ensures Chosen(sc0, sc, path)
  {
    assert path[0..] == path;
  }

  /** One more queue on the way is left through the stream that is first in time. */
  lemma PathStep(t: Tree, kids: Kids, rank: Ranks, sc0: Sched, sc: Sched, hist0: Histories, hist: Histories,
                 path: seq<Id>, i: nat)
    requires ValidBut(t, kids, rank, {}) && Scheduled(t.flags, t.weight, sc, hist)
    requires 0 < i < |path| && OnWay(t, sc0, sc, hist0, hist, path, i)
    ensures path[i] in t.links.depPrev && t.links.depPrev[path[i]] == Some(path[i - 1])
    ensures path[i - 1] in sc && path[i] in sc && path[i - 1] in t.flags.obq && path[i] in t.flags.obq[path[i - 1]]
    ensures path[i - 1] in hist && path[i - 1] != path[i]
    ensures hist[path[i - 1]].Sound? ==> S.IsTop(QueueOf(t.flags, t.weight, sc, path[i - 1]), path[i])
  {
    hide ValidBut, FirstInTime, QueueOf, S.IsTop, Scheduled, Chosen;
    ScheduledKeys(t.flags, t.weight, sc, hist);
    PathFacts(t, kids, rank, hist0, path);
    KidsKeys(t, kids, rank);
    var d, c := path[i - 1], path[i];
    assert LeadsAt(t, hist0, path[i - 1], path[i]);
    if hist[d].Sound? { TopFirst(t.flags, t.weight, sc, hist, d, c); }
  }

  lemma WayStep(t: Tree, kids: Kids, rank: Ranks, sc0: Sched, sc: Sched, hist0: Histories, hist: Histories,
                told: Histories, path: seq<Id>, i: nat)
    requires ValidBut(t, kids, rank, {}) && 0 < i < |path| && OnWay(t, sc0, sc, hist0, hist, path, i)
    requires path[i - 1] in sc && path[i] in sc
    requires told.Keys == hist.Keys && forall n :: n in hist && n != path[i - 1] ==> told[n] == hist[n]
    ensures OnWay(t, sc0, sc[path[i - 1] := sc[path[i - 1]].(base := sc[path[i]].cycle)], hist0, told, path, i - 1)
    ensures path[i - 1] in t.links.depPrev && (i - 1 > 0 <==> t.links.depPrev[path[i - 1]].Some?)
  {
    hide ValidBut, Chosen, LeadsAt;
    PathFacts(t, kids, rank, hist0, path);
    forall j | 0 <= j < |path| && j != i - 1 ensures path[j] != path[i - 1] {
      if j < i - 1 { assert rank[path[j]] < rank[path[i - 1]]; } else { assert rank[path[i - 1]] < rank[path[j]]; }
    }
    ChosenFurther(sc0, sc, path, i);
    PathParent(t, path, i - 1);
  }

  lemma ChosenNone(sc: Sched, path: seq<Id>)
    requires path != [] && path[|path| - 1] in sc
    ensures Chosen(sc, sc, path[|path| - 1..])
  {
  }

  lemma ChosenFurther(sc0: Sched, sc: Sched, path: seq<Id>, i: nat)
    requires 0 < i < |path| && Chosen(sc0, sc, path[i..]) && path[i - 1] in sc && path[i] in sc
    requires forall j :: 0 <= j < |path| && j != i - 1 ==> path[j] != path[i - 1]
    ensures Chosen(sc0, sc[path[i - 1] := sc[path[i - 1]].(base := sc[path[i]].cycle)], path[i - 1..])
  {
    hide Chosen;
    assert path[i - 1..] == [path[i - 1]] + path[i..] && path[i..][0] == path[i];
    ChosenCons(sc0, sc, path[i..], path[i - 1]);
  }

  lemma ChosenCons(sc0: Sched, sc: Sched, a: seq<Id>, d: Id)
    requires Chosen(sc0, sc, a) && d in sc && d !in a
    ensures a != [] && a[0] in sc && Chosen(sc0, sc[d := sc[d].(base := sc[a[0]].cycle)], [d] + a)
  {
    var b, c := [d] + a, a[0];
    assert b[..|b| - 1] == [d] + a[..|a| - 1];
    assert sc[c].cycle == sc0[c].cycle by { if |a| > 1 { assert sc[a[0]] == sc0[a[0]].(base := sc0[a[1]].cycle); } }
    var sc' := sc[d := sc[d].(base := sc[c].cycle)];
    forall j | 0 <= j < |b| - 1 ensures sc'[b[j]] == sc0[b[j]].(base := sc0[b[j + 1]].cycle) {
      if j > 0 { assert sc[a[j - 1]] == sc0[a[j - 1]].(base := sc0[a[j]].cycle); }
    }
  }
}
