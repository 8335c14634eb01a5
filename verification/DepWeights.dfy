/** Weights in the dependency tree of lib/nghttp2_stream.c: each stream keeps the sum over its children. */
module DepWeights {
  import opened Bytes
  import opened DepLinks
  import Scheduler

  const MAX_WEIGHT := Scheduler.MAX_WEIGHT
  const DEFAULT_WEIGHT := 16

  type WeightMap = map<Id, int>

  function WeightOf(w: WeightMap, c: Id): int { if c in w then w[c] else 0 }

  function Sum(w: WeightMap, s: seq<Id>): int { if s == [] then 0 else WeightOf(w, s[0]) + Sum(w, s[1..]) }

  ghost predicate Weights(w: WeightMap, sum: WeightMap, kids: Kids)
  {
    && w.Keys == kids.Keys && sum.Keys == kids.Keys
    && (forall n :: n in kids ==> 1 <= w[n] <= MAX_WEIGHT)
    && (forall n :: n in kids ==> sum[n] == Sum(w, kids[n]))
  }

  /** nghttp2_stream_dep_distributed_weight: a child's share of the weight of its parent. */
  function Share(parent: int, child: int, sum: int): int
    requires sum > 0
  {
    Max(1, parent * child / sum)
  }

  lemma ShareRange(parent: int, child: int, sum: int)
    requires 1 <= parent && 1 <= child <= sum
    ensures 1 <= Share(parent, child, sum) <= parent
  {
    var q := parent * child / sum;
    assert sum * q + parent * child % sum == parent * child;
    assert parent * (sum - child) >= 0;
    assert sum * (q - parent) <= 0 by { assert sum * (q - parent) == sum * q - sum * parent; }
    assert q - parent >= 1 ==> sum * (q - parent) >= 1;
  }

  /** The share is the quotient of section 5.3.4 of RFC 7540 rounded down, but at least 1. */
  lemma ShareExact(parent: int, child: int, sum: int)
    requires 1 <= parent && 1 <= child <= sum
    ensures IsShare(parent, child, sum, Share(parent, child, sum))
  {
    var q := parent * child / sum;
    assert sum * q + parent * child % sum == parent * child;
    assert sum * (q + 1) == sum * q + sum;
    assert q <= -1 ==> sum * q <= -sum;
    assert q >= 1 ==> sum * q >= sum;
  }

  predicate IsShare(parent: int, child: int, sum: int, share: int)
  {
    if parent * child >= sum then sum * share <= parent * child < sum * (share + 1) else share == 1
  }

  lemma MulOrder(k: int, a: int, b: int)
    requires k > 0 && k * a < k * b
    ensures a < b
  {
    assert a >= b ==> k * (a - b) >= 0;
    assert k * (a - b) == k * a - k * b;
  }

  /** A heavier child gets no smaller share. */
  lemma ShareOrder(parent: int, a: int, b: int, sum: int, x: int, y: int)
    requires 1 <= parent && 1 <= a <= b && sum > 0 && IsShare(parent, a, sum, x) && IsShare(parent, b, sum, y)
    ensures x <= y
  {
    assert parent * a <= parent * b by { assert parent * (b - a) >= 0; }
    if parent * b >= sum {
      if parent * a >= sum {
        MulOrder(sum, x, y + 1);
      } else {
        assert sum * 1 < sum * (y + 1);
        MulOrder(sum, 1, y + 1);
      }
    }
  }

  lemma ShareNear(parent: int, child: int, sum: int, share: int)
    requires 1 <= parent && 1 <= child && sum > 0 && IsShare(parent, child, sum, share)
    ensures -sum <= sum * share - parent * child <= sum
  {
    assert sum * (share + 1) == sum * share + sum;
    assert parent * child >= 1;
  }

  lemma {:induction false} SumSplit(w: WeightMap, a: seq<Id>, b: seq<Id>)
    ensures Sum(w, a + b) == Sum(w, a) + Sum(w, b)
  {
    if a == [] {
      assert a + b == b;
    } else {
      assert (a + b)[1..] == a[1..] + b;
      SumSplit(w, a[1..], b);
    }
  }

  lemma {:induction false} SumFrame(w: WeightMap, w': WeightMap, s: seq<Id>)
    requires forall c :: c in s ==> WeightOf(w, c) == WeightOf(w', c)
    ensures Sum(w, s) == Sum(w', s)
  {
    if s != [] { SumFrame(w, w', s[1..]); }
  }

  lemma {:induction false} SumMember(w: WeightMap, s: seq<Id>, c: Id)
    requires c in s && forall x :: x in s ==> WeightOf(w, x) >= 1
    ensures Sum(w, s) >= WeightOf(w, c)
  {
    if c != s[0] { SumMember(w, s[1..], c); } else if |s| > 1 { SumMember(w, s[1..], s[1]); }
  }

  lemma SumSpliced(w: WeightMap, t: seq<Id>, i: nat, m: seq<Id>)
    requires i < |t|
    ensures Sum(w, Spliced(t, i, m)) == Sum(w, t) - WeightOf(w, t[i]) + Sum(w, m)
  {
    assert t == t[..i] + ([t[i]] + t[i + 1..]);
    SumSplit(w, t[..i], [t[i]] + t[i + 1..]);
    SumSplit(w, [t[i]], t[i + 1..]);
    SumSplit(w, t[..i] + m, t[i + 1..]);
    SumSplit(w, t[..i], m);
  }

  // ---- the sums after each operation -----------------------------------------------

  lemma WeightsAdd(w: WeightMap, sum: WeightMap, kids: Kids, dep: Id, s: Id)
    requires Weights(w, sum, kids) && dep in kids && s in kids
    ensures Weights(w, sum[dep := sum[dep] + w[s]], AddFirst(kids, dep, s))
  {
    SumSplit(w, [s], kids[dep]);
  }

  lemma WeightsInsert(w: WeightMap, sum: WeightMap, kids: Kids, dep: Id, s: Id)
    requires Weights(w, sum, kids) && dep in kids && s in kids && dep != s
    ensures Weights(w, sum[s := sum[s] + sum[dep]][dep := w[s]], InsertAbove(kids, dep, s))
  {
    SumSplit(w, kids[s], kids[dep]);
    assert Sum(w, [s]) == w[s];
  }

  lemma WeightsTakeOut(w: WeightMap, sum: WeightMap, kids: Kids, p: Id, i: nat)
    requires Weights(w, sum, kids) && p in kids && i < |kids[p]| && kids[p][i] in kids
    ensures Weights(w, sum[p := sum[p] - w[kids[p][i]]], TakeOut(kids, p, i))
  {
    SumSpliced(w, kids[p], i, []);
  }

  /** The weights of the streams in `m` are their shares of the weight of `s`. */
  function Shared(w: WeightMap, m: seq<Id>, s: Id, sum: int): WeightMap
  {
    map c | c in w :: if c in m && sum > 0 then Share(WeightOf(w, s), w[c], sum) else w[c]
  }

  lemma SharedRange(w: WeightMap, kids: Kids, s: Id, sum: int)
    requires w.Keys == kids.Keys && (forall n :: n in kids ==> 1 <= w[n] <= MAX_WEIGHT) && s in kids
    requires sum == Sum(w, kids[s]) && forall c :: c in kids[s] ==> c in kids
    ensures kids[s] != [] ==> sum > 0
    ensures var w' := Shared(w, kids[s], s, sum);
            w'.Keys == kids.Keys && forall n :: n in kids ==> 1 <= w'[n] <= MAX_WEIGHT
  {
    var m := kids[s];
    forall c | c in m ensures sum >= w[c] >= 1 { SumMember(w, m, c); }
    if m != [] { assert m[0] in m; }
    forall c | c in m ensures 1 <= Share(w[s], w[c], sum) <= MAX_WEIGHT { ShareRange(w[s], w[c], sum); }
  }

  lemma SharedSum(w: WeightMap, m: seq<Id>, s: Id, sum: int, t: seq<Id>)
    requires Apart(m, t)
    ensures Sum(Shared(w, m, s, sum), t) == Sum(w, t)
  {
    SumFrame(w, Shared(w, m, s, sum), t);
  }

  /**
   * What the children `m` of a removed stream of weight `parent` get: each its share, in the order of their weights,
   * and all together no more than one for each child off the weight shared out.  Nobody else gets anything.
   */
  ghost predicate FairlyShared(w: WeightMap, w': WeightMap, m: seq<Id>, parent: int)
  {
    && w'.Keys == w.Keys && (forall c :: c in w && c !in m ==> w'[c] == w[c])
    && (forall c :: c in m ==> c in w && IsShare(parent, w[c], Sum(w, m), w'[c]))
    && (forall a, b :: a in m && b in m && w[a] <= w[b] ==> w'[a] <= w'[b])
    && (m != [] ==> parent - |m| <= Sum(w', m) <= parent + |m|)
  }

  lemma {:induction false} TotalShared(w: WeightMap, w': WeightMap, a: seq<Id>, parent: int, sum: int)
    requires 1 <= parent && sum > 0
    requires forall c :: c in a ==> c in w && c in w' && w[c] >= 1 && IsShare(parent, w[c], sum, w'[c])
    ensures -(sum * |a|) <= sum * Sum(w', a) - parent * Sum(w, a) <= sum * |a|
  {
    if a != [] {
      hide IsShare;
      var c := a[0];
      TotalShared(w, w', a[1..], parent, sum);
      ShareNear(parent, w[c], sum, w'[c]);
      TotalStep(sum, parent, w'[c], w[c], Sum(w', a[1..]), Sum(w, a[1..]), |a| - 1);
    }
  }

  lemma TotalStep(sum: int, parent: int, x: int, c: int, xs: int, cs: int, n: int)
    requires -sum <= sum * x - parent * c <= sum && -(sum * n) <= sum * xs - parent * cs <= sum * n
    ensures -(sum * (n + 1)) <= sum * (x + xs) - parent * (c + cs) <= sum * (n + 1)
  {
    assert sum * (x + xs) == sum * x + sum * xs;
    assert parent * (c + cs) == parent * c + parent * cs;
    assert sum * (n + 1) == sum * n + sum;
  }

  lemma SharesFairly(w: WeightMap, m: seq<Id>, s: Id)
    requires s in w && (forall n :: n in w ==> 1 <= w[n] <= MAX_WEIGHT) && forall c :: c in m ==> c in w
    ensures FairlyShared(w, Shared(w, m, s, Sum(w, m)), m, w[s])
  {
    var sum, w', parent := Sum(w, m), Shared(w, m, s, Sum(w, m)), w[s];
    forall c | c in m ensures sum >= w[c] && IsShare(parent, w[c], sum, w'[c]) {
      SumMember(w, m, c);
      ShareExact(parent, w[c], sum);
    }
    hide IsShare, Share, Shared, Sum;
    forall a, b | a in m && b in m && w[a] <= w[b] ensures w'[a] <= w'[b] {
      ShareOrder(parent, w[a], w[b], sum, w'[a], w'[b]);
    }
    if m != [] {
      assert m[0] in m;
      TotalShared(w, w', m, parent, sum);
      TotalNear(sum, parent, Sum(w', m), |m|);
    }
  }

  lemma TotalNear(sum: int, parent: int, x: int, n: int)
    requires sum > 0 && -(sum * n) <= sum * x - parent * sum <= sum * n
    ensures parent - n <= x <= parent + n
  {
    assert sum * x - parent * sum == sum * (x - parent);
    assert x - parent > n ==> sum * (x - parent - n) >= 1;
    assert x - parent < -n ==> sum * (x - parent + n) <= -1;
    assert sum * (x - parent - n) == sum * (x - parent) - sum * n;
    assert sum * (x - parent + n) == sum * (x - parent) + sum * n;
  }

  lemma SumsReplaced(w: WeightMap, w': WeightMap, kids: Kids, p: Id, i: nat, s: Id, m: seq<Id>)
    requires p in kids && i < |kids[p]| && kids[p][i] == s && s in kids && s != p && m == kids[s]
    requires forall n :: n in kids && n != s ==> Sum(w', kids[n]) == Sum(w, kids[n])
    requires WeightOf(w', s) == WeightOf(w, s)
    ensures var kids' := ReplaceByKids(kids, p, i);
            && kids'.Keys == kids.Keys
            && Sum(w', kids'[p]) == Sum(w, kids[p]) - WeightOf(w, s) + Sum(w', m)
            && Sum(w', kids'[s]) == 0
            && forall n :: n in kids && n != s && n != p ==> Sum(w', kids'[n]) == Sum(w, kids[n])
  {
    hide Spliced;
    SumSpliced(w', kids[p], i, m);
  }

  lemma ParentKept(w: WeightMap, m: seq<Id>, siblings: seq<Id>, s: Id, sum: int)
    requires s in siblings && Apart(m, siblings) && s in w
    ensures s in Shared(w, m, s, sum) && Shared(w, m, s, sum)[s] == w[s]
  {
  }

  lemma WeightsReplace(w: WeightMap, sum: WeightMap, kids: Kids, p: Id, i: nat, s: Id)
    requires p in kids && i < |kids[p]| && kids[p][i] == s && s in kids && s != p
    requires Weights(w, sum, kids)
    requires forall c :: c in kids[s] ==> c in kids
    requires forall n :: n in kids && n != s ==> Apart(kids[s], kids[n])
    ensures kids[s] != [] ==> sum[s] > 0
    ensures var w' := Shared(w, kids[s], s, sum[s]);
            Weights(w', sum[p := sum[p] - w[s] + Sum(w', kids[s])][s := 0], ReplaceByKids(kids, p, i))
  {
    hide Shared, Apart, Sum, ReplaceByKids;
    var m := kids[s];
    SharedRange(w, kids, s, sum[s]);
    var w' := Shared(w, m, s, sum[s]);
    ParentKept(w, m, kids[p], s, sum[s]);
    forall n | n in kids && n != s ensures Sum(w', kids[n]) == Sum(w, kids[n]) {
      SharedSum(w, m, s, sum[s], kids[n]);
    }
    SumsReplaced(w, w', kids, p, i, s, m);
  }

  /** A stream in no list gets a new weight. */
  lemma WeightsSet(w: WeightMap, sum: WeightMap, kids: Kids, s: Id, x: int)
    requires Weights(w, sum, kids) && s in kids && 1 <= x <= MAX_WEIGHT
    requires forall n :: n in kids ==> s !in kids[n]
    ensures Weights(w[s := x], sum, kids)
  {
    forall n | n in kids ensures Sum(w[s := x], kids[n]) == sum[n] { SumFrame(w, w[s := x], kids[n]); }
  }

  lemma WeightsChange(w: WeightMap, sum: WeightMap, kids: Kids, p: Id, i: nat, x: int)
    requires Weights(w, sum, kids) && p in kids && i < |kids[p]| && kids[p][i] in kids && 1 <= x <= MAX_WEIGHT
    requires Distinct(kids[p]) && forall n :: n in kids && n != p ==> kids[p][i] !in kids[n]
    ensures var s := kids[p][i]; Weights(w[s := x], sum[p := sum[p] + x - w[s]], kids)
  {
    var s := kids[p][i];
    var t := kids[p];
    var w' := w[s := x];
    forall n | n in kids && n != p ensures Sum(w', kids[n]) == sum[n] { SumFrame(w, w', kids[n]); }
    SumSpliced(w, t, i, []);
    SumSpliced(w', t, i, []);
    forall c | c in Spliced(t, i, []) ensures c != s {
      SplicedMembers(t, i, [], c);
    }
    SumFrame(w, w', Spliced(t, i, []));
  }
}
