/**
 * The pointers of the dependency tree of lib/nghttp2_stream.c.  Streams are named by their identifiers, the
 * keys of the session's stream map, with 0 for the root; each pointer field is one map.  `Shape` says that
 * the four pointers of every stream spell out a list of children per stream, and the lemmas say what each
 * relinking does to those lists.
 */
module DepLinks {
  import opened Bytes

  type Id = nat
  type Ref = Option<Id>
  type Kids = map<Id, seq<Id>>

  datatype Links = Links(depPrev: map<Id, Ref>, depNext: map<Id, Ref>, sibPrev: map<Id, Ref>, sibNext: map<Id, Ref>)

  predicate SameKeys(l: Links, kids: Kids)
  {
    && l.depPrev.Keys == kids.Keys && l.depNext.Keys == kids.Keys
    && l.sibPrev.Keys == kids.Keys && l.sibNext.Keys == kids.Keys
  }

  function At(s: seq<Id>, i: int): Ref { if 0 <= i < |s| then Some(s[i]) else None }

  /** The links of the child at position `i` of a stretch `s` of children of `n`, between `x` and `z`. */
  predicate ChildLinks(l: Links, n: Id, s: seq<Id>, x: Ref, z: Ref, i: nat)
    requires i < |s|
  {
    && s[i] in l.depPrev && s[i] in l.sibPrev && s[i] in l.sibNext
    && l.depPrev[s[i]] == Some(n)
    && l.sibPrev[s[i]] == (if i == 0 then x else Some(s[i - 1]))
    && l.sibNext[s[i]] == (if i + 1 == |s| then z else Some(s[i + 1]))
  }

  ghost predicate Stretch(l: Links, n: Id, s: seq<Id>, x: Ref, z: Ref)
  {
    forall i :: 0 <= i < |s| ==> ChildLinks(l, n, s, x, z, i)
  }

  ghost predicate Chain(l: Links, n: Id, s: seq<Id>)
  {
    n in l.depNext && l.depNext[n] == At(s, 0) && Distinct(s) && Stretch(l, n, s, None, None)
  }

  /** A stream is in the list of its parent; one without a parent is in no list. */
  predicate Listed(l: Links, kids: Kids, c: Id)
    requires SameKeys(l, kids) && c in kids
  {
    match l.depPrev[c]
    case Some(p) => p in kids && c in kids[p]
    case None => l.sibPrev[c] == None && l.sibNext[c] == None
  }

  ghost predicate Shape(l: Links, kids: Kids)
  {
    && SameKeys(l, kids)
    && (forall n :: n in kids ==> Chain(l, n, kids[n]))
    && (forall c :: c in kids ==> Listed(l, kids, c))
  }

  lemma ChildOf(l: Links, kids: Kids, n: Id, c: Id)
    requires Shape(l, kids) && n in kids && c in kids[n]
    ensures c in kids && l.depPrev[c] == Some(n)
  {
    var i :| 0 <= i < |kids[n]| && kids[n][i] == c;
    assert Chain(l, n, kids[n]) && ChildLinks(l, n, kids[n], None, None, i);
  }

  predicate SameAt(l: Links, l': Links, c: Id)
  {
    && c in l.depPrev && c in l.sibPrev && c in l.sibNext && c in l'.depPrev && c in l'.sibPrev && c in l'.sibNext
    && l'.depPrev[c] == l.depPrev[c] && l'.sibPrev[c] == l.sibPrev[c] && l'.sibNext[c] == l.sibNext[c]
  }

  /** A list none of whose links changed. */
  lemma ChainFrame(l: Links, l': Links, n: Id, s: seq<Id>)
    requires Chain(l, n, s) && n in l'.depNext && l'.depNext[n] == l.depNext[n]
    requires forall c :: c in s ==> SameAt(l, l', c)
    ensures Chain(l', n, s)
  {
    forall i | 0 <= i < |s| ensures ChildLinks(l', n, s, None, None, i) {
      assert ChildLinks(l, n, s, None, None, i) && s[i] in s;
    }
  }

  function Or(a: Ref, b: Ref): Ref { if a.Some? then a else b }

  lemma StretchJoin(l: Links, n: Id, a: seq<Id>, b: seq<Id>, x: Ref, z: Ref)
    requires Stretch(l, n, a, x, Or(At(b, 0), z)) && Stretch(l, n, b, Or(At(a, |a| - 1), x), z)
    ensures Stretch(l, n, a + b, x, z)
  {
    var s := a + b;
    forall i | 0 <= i < |s| ensures ChildLinks(l, n, s, x, z, i) {
      if i < |a| {
        assert ChildLinks(l, n, a, x, Or(At(b, 0), z), i);
      } else {
        assert ChildLinks(l, n, b, Or(At(a, |a| - 1), x), z, i - |a|);
      }
    }
  }

  lemma StretchSplit(l: Links, n: Id, s: seq<Id>, x: Ref, z: Ref, k: nat)
    requires Stretch(l, n, s, x, z) && k <= |s|
    ensures Stretch(l, n, s[..k], x, Or(At(s, k), z)) && Stretch(l, n, s[k..], Or(At(s, k - 1), x), z)
  {
    forall i | 0 <= i < k ensures ChildLinks(l, n, s[..k], x, Or(At(s, k), z), i) {
      assert ChildLinks(l, n, s, x, z, i);
    }
    var left := Or(At(s, k - 1), x);
    forall i | 0 <= i < |s[k..]| ensures ChildLinks(l, n, s[k..], left, z, i) {
      assert ChildLinks(l, n, s, x, z, k + i);
    }
  }

  /** The stretch `s` of children of `m` goes to `n`, and its two ends get new neighbours. */
  predicate Relinked(l: Links, l': Links, n: Id, s: seq<Id>, x: Ref, z: Ref, i: nat)
    requires i < |s|
  {
    && s[i] in l.sibPrev && s[i] in l.sibNext && s[i] in l'.depPrev && s[i] in l'.sibPrev && s[i] in l'.sibNext
    && l'.depPrev[s[i]] == Some(n)
    && l'.sibPrev[s[i]] == (if i == 0 then x else l.sibPrev[s[i]])
    && l'.sibNext[s[i]] == (if i + 1 == |s| then z else l.sibNext[s[i]])
  }

  lemma StretchMoved(l: Links, l': Links, m: Id, n: Id, s: seq<Id>, x: Ref, z: Ref, x': Ref, z': Ref)
    requires Stretch(l, m, s, x, z)
    requires forall i :: 0 <= i < |s| ==> Relinked(l, l', n, s, x', z', i)
    ensures Stretch(l', n, s, x', z')
  {
    forall i | 0 <= i < |s| ensures ChildLinks(l', n, s, x', z', i) {
      assert ChildLinks(l, m, s, x, z, i) && Relinked(l, l', n, s, x', z', i);
    }
  }

  /** A stream all of whose changed links are explained by the lists rewritten. */
  predicate Accounted(l: Links, l': Links, kids: Kids, kids': Kids, touched: set<Id>, c: Id)
  {
    && SameKeys(l, kids) && SameKeys(l', kids') && c in kids && c in kids' && Listed(l', kids', c)
    && (SameAt(l, l', c) || l.depPrev[c] == None || l.depPrev[c].value in touched)
  }

  predicate Untouched(l: Links, l': Links, kids: Kids, kids': Kids, touched: set<Id>)
  {
    && SameKeys(l, kids) && SameKeys(l', kids') && kids'.Keys == kids.Keys && touched <= kids.Keys
    && forall n :: n in kids && n !in touched ==> kids'[n] == kids[n] && l'.depNext[n] == l.depNext[n]
  }

  /** Only the lists of the streams in `touched` were rewritten. */
  lemma ShapeFrom(l: Links, l': Links, kids: Kids, kids': Kids, touched: set<Id>)
    requires Shape(l, kids) && Untouched(l, l', kids, kids', touched)
    requires forall n :: n in touched ==> Chain(l', n, kids'[n])
    requires forall c :: c in kids ==> Accounted(l, l', kids, kids', touched, c)
    ensures Shape(l', kids')
  {
    forall n | n in kids && n !in touched ensures Chain(l', n, kids'[n]) {
      forall c | c in kids[n] ensures SameAt(l, l', c) {
        ChildOf(l, kids, n, c);
        assert Accounted(l, l', kids, kids', touched, c);
      }
      assert Chain(l, n, kids[n]);
      ChainFrame(l, l', n, kids[n]);
    }
    forall c | c in kids' ensures Listed(l', kids', c) { assert Accounted(l, l', kids, kids', touched, c); }
  }

  // ---- what the operations do to the lists of children ------------------------

  /** A stream without a parent becomes the first child of `dep`. */
  function AddFirst(kids: Kids, dep: Id, s: Id): Kids
    requires dep in kids
  {
    kids[dep := [s] + kids[dep]]
  }

  /** A stream without a parent becomes the only child of `dep` and adopts the others. */
  function InsertAbove(kids: Kids, dep: Id, s: Id): Kids
    requires dep in kids && s in kids
  {
    kids[s := kids[s] + kids[dep]][dep := [s]]
  }

  function Spliced(t: seq<Id>, i: nat, m: seq<Id>): seq<Id>
    requires i < |t|
  {
    t[..i] + m + t[i + 1..]
  }

  /** The stream at position `i` of the children of `p` leaves, with its subtree. */
  function TakeOut(kids: Kids, p: Id, i: nat): Kids
    requires p in kids && i < |kids[p]|
  {
    kids[p := Spliced(kids[p], i, [])]
  }

  /** The stream at position `i` of the children of `p` leaves, and its children take its place. */
  function ReplaceByKids(kids: Kids, p: Id, i: nat): Kids
    requires p in kids && i < |kids[p]| && kids[p][i] in kids
  {
    var s := kids[p][i];
    kids[p := Spliced(kids[p], i, kids[s])][s := []]
  }

  function Moved(m: map<Id, Ref>, s: seq<Id>, p: Id): map<Id, Ref>
  {
    map c | c in m :: if c in s then Some(p) else m[c]
  }

  // ---- adding in front ----------------------------------------------------------

  function AddLinks(l: Links, dep: Id, s: Id): Links
    requires dep in l.depNext
  {
    var first := l.depNext[dep];
    Links(l.depPrev[s := Some(dep)], l.depNext[dep := Some(s)],
          if first.Some? then l.sibPrev[first.value := Some(s)] else l.sibPrev,
          if first.Some? then l.sibNext[s := first] else l.sibNext)
  }

  lemma ChainAdd(l: Links, dep: Id, s: Id, was: seq<Id>)
    requires Chain(l, dep, was) && s !in was && s in l.sibPrev && l.sibPrev[s] == None
    requires s in l.sibNext && l.sibNext[s] == None
    ensures Chain(AddLinks(l, dep, s), dep, [s] + was)
  {
    var l' := AddLinks(l, dep, s);
    forall i | 0 <= i < |was| ensures Relinked(l, l', dep, was, Some(s), None, i) {
      assert ChildLinks(l, dep, was, None, None, i) && was[i] in was;
    }
    StretchMoved(l, l', dep, dep, was, None, None, Some(s), None);
    if was != [] { assert ChildLinks(l, dep, was, None, None, 0); }
    assert ChildLinks(l', dep, [s], None, At(was, 0), 0);
    StretchJoin(l', dep, [s], was, None, None);
  }

  lemma ListedAdd(l: Links, kids: Kids, dep: Id, s: Id, c: Id)
    requires SameKeys(l, kids) && dep in kids && s in kids && c in kids && Listed(l, kids, c)
    requires l.depPrev[s] == None && dep != s
    requires l.depNext[dep].Some? ==> l.depNext[dep].value in kids && l.depPrev[l.depNext[dep].value] == Some(dep)
    ensures Accounted(l, AddLinks(l, dep, s), kids, AddFirst(kids, dep, s), {dep}, c)
  {
    var t := [s] + kids[dep];
    assert t[0] == s && t[1..] == kids[dep];
  }

  lemma FirstChild(l: Links, kids: Kids, n: Id)
    requires Shape(l, kids) && n in kids
    ensures l.depNext[n] == At(kids[n], 0) && Distinct(kids[n])
    ensures l.depNext[n].Some? ==> l.depNext[n].value in kids && l.depPrev[l.depNext[n].value] == Some(n)
  {
    assert Chain(l, n, kids[n]);
    if kids[n] != [] { ChildOf(l, kids, n, kids[n][0]); }
  }

  lemma AllAdd(l: Links, kids: Kids, dep: Id, s: Id)
    requires Shape(l, kids) && dep in kids && s in kids && dep != s && l.depPrev[s] == None
    ensures forall c :: c in kids ==> Accounted(l, AddLinks(l, dep, s), kids, AddFirst(kids, dep, s), {dep}, c)
  {
    hide Accounted, AddLinks, AddFirst, Chain;
    FirstChild(l, kids, dep);
    forall c | c in kids ensures Accounted(l, AddLinks(l, dep, s), kids, AddFirst(kids, dep, s), {dep}, c) {
      assert Listed(l, kids, c);
      ListedAdd(l, kids, dep, s, c);
    }
  }

  lemma ChainsAdd(l: Links, kids: Kids, dep: Id, s: Id)
    requires Shape(l, kids) && dep in kids && s in kids && dep != s && l.depPrev[s] == None
    ensures Untouched(l, AddLinks(l, dep, s), kids, AddFirst(kids, dep, s), {dep})
    ensures Chain(AddLinks(l, dep, s), dep, AddFirst(kids, dep, s)[dep])
  {
    hide Shape, Chain;
    FirstChild(l, kids, dep);
    KidsOf(l, kids, dep);
    ListedOf(l, kids, s);
    ChainAdd(l, dep, s, kids[dep]);
  }

  lemma ShapeAdd(l: Links, kids: Kids, dep: Id, s: Id)
    requires Shape(l, kids) && dep in kids && s in kids && dep != s && l.depPrev[s] == None
    ensures Shape(AddLinks(l, dep, s), AddFirst(kids, dep, s))
  {
    hide Shape, Chain, Listed, Accounted, AddLinks, AddFirst, Untouched;
    ShapeKeys(l, kids);
    AllAdd(l, kids, dep, s);
    ChainsAdd(l, kids, dep, s);
    ShapeFrom(l, AddLinks(l, dep, s), kids, AddFirst(kids, dep, s), {dep});
  }

  // ---- inserting above the children of a stream -----------------------------------

  /** `a` are the children of `s` and `b` those of `dep`. */
  function InsertLinks(l: Links, dep: Id, s: Id, a: seq<Id>, b: seq<Id>): Links
  {
    var joined := a != [] && b != [];
    Links(Moved(l.depPrev, b, s)[s := Some(dep)],
          (if a == [] then l.depNext[s := At(b, 0)] else l.depNext)[dep := Some(s)],
          if joined then l.sibPrev[b[0] := Some(a[|a| - 1])] else l.sibPrev,
          if joined then l.sibNext[a[|a| - 1] := Some(b[0])] else l.sibNext)
  }

  predicate Apart(a: seq<Id>, b: seq<Id>) { forall c :: c in a ==> c !in b }

  lemma ChainConcat(l: Links, dep: Id, s: Id, a: seq<Id>, b: seq<Id>)
    requires Chain(l, s, a) && Chain(l, dep, b) && dep != s && Apart(a, b) && s !in a && s !in b
    ensures Chain(InsertLinks(l, dep, s, a, b), s, a + b)
  {
    var l' := InsertLinks(l, dep, s, a, b);
    forall i | 0 <= i < |a| ensures Relinked(l, l', s, a, None, At(b, 0), i) {
      assert ChildLinks(l, s, a, None, None, i) && a[i] in a;
    }
    StretchMoved(l, l', s, s, a, None, None, None, At(b, 0));
    var last := At(a, |a| - 1);
    forall i | 0 <= i < |b| ensures Relinked(l, l', s, b, last, None, i) {
      assert ChildLinks(l, dep, b, None, None, i) && b[i] in b;
    }
    StretchMoved(l, l', dep, s, b, None, None, last, None);
    StretchJoin(l', s, a, b, None, None);
    DistinctJoin(a, b);
  }

  lemma DistinctJoin(a: seq<Id>, b: seq<Id>)
    requires Distinct(a) && Distinct(b) && Apart(a, b)
    ensures Distinct(a + b)
  {
    forall i, j | 0 <= i < j < |a + b| ensures (a + b)[i] != (a + b)[j] {
      if i < |a| && j >= |a| { assert a[i] in a && b[j - |a|] in b; }
    }
  }

  lemma ListedInsert(l: Links, kids: Kids, dep: Id, s: Id, c: Id)
    requires SameKeys(l, kids) && dep in kids && s in kids && c in kids && Listed(l, kids, c)
    requires l.depPrev[s] == None && dep != s && l.sibPrev[s] == None && l.sibNext[s] == None
    requires forall x :: x in kids[s] ==> x in kids && l.depPrev[x] == Some(s)
    requires forall x :: x in kids[dep] ==> x in kids && l.depPrev[x] == Some(dep)
    ensures Accounted(l, InsertLinks(l, dep, s, kids[s], kids[dep]), kids, InsertAbove(kids, dep, s), {s, dep}, c)
  {
    hide InsertLinks, SameKeys, InsertAbove, Listed, SameAt;
    LastAndFirst(kids, dep, s);
    InsertKeepsKeys(l, kids, dep, s);
    InsertListed(l, kids, dep, s, c);
    InsertSameAt(l, kids, dep, s, c);
  }

  lemma LastAndFirst(kids: Kids, dep: Id, s: Id)
    requires dep in kids && s in kids
    requires forall x :: x in kids[s] || x in kids[dep] ==> x in kids
    ensures kids[s] != [] ==> kids[s][|kids[s]| - 1] in kids
    ensures kids[dep] != [] ==> kids[dep][0] in kids
  {
  }

  lemma InsertKeepsKeys(l: Links, kids: Kids, dep: Id, s: Id)
    requires SameKeys(l, kids) && dep in kids && s in kids
    requires kids[s] != [] ==> kids[s][|kids[s]| - 1] in kids
    requires kids[dep] != [] ==> kids[dep][0] in kids
    ensures SameKeys(InsertLinks(l, dep, s, kids[s], kids[dep]), InsertAbove(kids, dep, s))
    ensures InsertAbove(kids, dep, s).Keys == kids.Keys
  {
  }

  lemma InsertListed(l: Links, kids: Kids, dep: Id, s: Id, c: Id)
    requires SameKeys(l, kids) && dep in kids && s in kids && c in kids && Listed(l, kids, c) && dep != s
    requires l.depPrev[s] == None && forall x :: x in kids[s] ==> x in kids && l.depPrev[x] == Some(s)
    requires forall x :: x in kids[dep] ==> x in kids && l.depPrev[x] == Some(dep)
    requires SameKeys(InsertLinks(l, dep, s, kids[s], kids[dep]), InsertAbove(kids, dep, s))
    requires c in InsertAbove(kids, dep, s)
    ensures Listed(InsertLinks(l, dep, s, kids[s], kids[dep]), InsertAbove(kids, dep, s), c)
  {
    var kids' := InsertAbove(kids, dep, s);
    assert kids'[dep] == [s] && kids'[s] == kids[s] + kids[dep];
    if l.depPrev[c] == None { InsertSameAt(l, kids, dep, s, c); }
  }

  lemma InsertSameAt(l: Links, kids: Kids, dep: Id, s: Id, c: Id)
    requires SameKeys(l, kids) && dep in kids && s in kids && c in kids && l.depPrev[s] == None
    requires forall x :: x in kids[s] ==> x in kids && l.depPrev[x] == Some(s)
    requires forall x :: x in kids[dep] ==> x in kids && l.depPrev[x] == Some(dep)
    ensures c == s || SameAt(l, InsertLinks(l, dep, s, kids[s], kids[dep]), c)
            || (l.depPrev[c].Some? && l.depPrev[c].value in {s, dep})
  {
    var a, b := kids[s], kids[dep];
    if a != [] { assert a[|a| - 1] in a; }
    if b != [] { assert b[0] in b; }
  }

  lemma KidsOf(l: Links, kids: Kids, n: Id)
    requires Shape(l, kids) && n in kids
    ensures Chain(l, n, kids[n]) && forall x :: x in kids[n] ==> x in kids && l.depPrev[x] == Some(n)
  {
    forall x | x in kids[n] ensures x in kids && l.depPrev[x] == Some(n) { ChildOf(l, kids, n, x); }
  }

  lemma ChainsInsert(l: Links, kids: Kids, dep: Id, s: Id)
    requires SameKeys(l, kids) && dep in kids && s in kids && dep != s
    requires l.depPrev[s] == None && l.sibPrev[s] == None && l.sibNext[s] == None
    requires Chain(l, dep, kids[dep]) && Chain(l, s, kids[s])
    requires forall x :: x in kids[s] ==> x in kids && l.depPrev[x] == Some(s)
    requires forall x :: x in kids[dep] ==> x in kids && l.depPrev[x] == Some(dep)
    ensures var l' := InsertLinks(l, dep, s, kids[s], kids[dep]);
            Chain(l', s, InsertAbove(kids, dep, s)[s]) && Chain(l', dep, InsertAbove(kids, dep, s)[dep])
  {
    var a, b := kids[s], kids[dep];
    ChainConcat(l, dep, s, a, b);
    if a != [] { assert a[|a| - 1] in a; }
    if b != [] { assert b[0] in b; }
    assert ChildLinks(InsertLinks(l, dep, s, a, b), dep, [s], None, None, 0);
  }

  lemma AllInsert(l: Links, kids: Kids, dep: Id, s: Id)
    requires Shape(l, kids) && dep in kids && s in kids && dep != s && l.depPrev[s] == None
    ensures forall c :: c in kids ==>
              Accounted(l, InsertLinks(l, dep, s, kids[s], kids[dep]), kids, InsertAbove(kids, dep, s), {s, dep}, c)
  {
    hide Accounted, InsertLinks, InsertAbove, Chain;
    KidsOf(l, kids, s);
    KidsOf(l, kids, dep);
    assert Listed(l, kids, s);
    forall c | c in kids
      ensures Accounted(l, InsertLinks(l, dep, s, kids[s], kids[dep]), kids, InsertAbove(kids, dep, s), {s, dep}, c)
    {
      assert Listed(l, kids, c);
      ListedInsert(l, kids, dep, s, c);
    }
  }

  lemma UntouchedInsert(l: Links, kids: Kids, dep: Id, s: Id)
    requires Shape(l, kids) && dep in kids && s in kids && dep != s && l.depPrev[s] == None
    ensures Untouched(l, InsertLinks(l, dep, s, kids[s], kids[dep]), kids, InsertAbove(kids, dep, s), {s, dep})
    ensures var l' := InsertLinks(l, dep, s, kids[s], kids[dep]);
            Chain(l', s, InsertAbove(kids, dep, s)[s]) && Chain(l', dep, InsertAbove(kids, dep, s)[dep])
  {
    hide Shape, Chain, InsertLinks;
    ListedOf(l, kids, s);
    KidsOf(l, kids, s);
    KidsOf(l, kids, dep);
    KeysInsert(l, kids, dep, s);
    ChainsInsert(l, kids, dep, s);
  }

  lemma KeysInsert(l: Links, kids: Kids, dep: Id, s: Id)
    requires SameKeys(l, kids) && dep in kids && s in kids
    requires forall x :: x in kids[s] || x in kids[dep] ==> x in kids
    ensures SameKeys(InsertLinks(l, dep, s, kids[s], kids[dep]), kids)
    ensures var l' := InsertLinks(l, dep, s, kids[s], kids[dep]);
            forall n :: n in kids && n != s && n != dep ==> l'.depNext[n] == l.depNext[n]
  {
    var l' := InsertLinks(l, dep, s, kids[s], kids[dep]);
    if kids[s] != [] { assert kids[s][|kids[s]| - 1] in kids[s]; }
    if kids[dep] != [] { assert kids[dep][0] in kids[dep]; }
    assert l'.depPrev.Keys == kids.Keys && l'.depNext.Keys == kids.Keys;
    assert l'.sibPrev.Keys == kids.Keys && l'.sibNext.Keys == kids.Keys;
  }

  lemma ShapeInsert(l: Links, kids: Kids, dep: Id, s: Id)
    requires Shape(l, kids) && dep in kids && s in kids && dep != s && l.depPrev[s] == None
    ensures Shape(InsertLinks(l, dep, s, kids[s], kids[dep]), InsertAbove(kids, dep, s))
  {
    hide *;
    AllInsert(l, kids, dep, s);
    UntouchedInsert(l, kids, dep, s);
    ShapeFrom(l, InsertLinks(l, dep, s, kids[s], kids[dep]), kids, InsertAbove(kids, dep, s), {s, dep});
  }

  // ---- taking a stream out of a list ----------------------------------------------

  /** The list `t` of the children of `p` loses its element at `i`, and `m` takes its place. */
  function SpliceLinks(l: Links, p: Id, t: seq<Id>, i: nat, m: seq<Id>): Links
    requires i < |t|
  {
    var s, next := t[i], At(t, i + 1);
    var first := Or(At(m, 0), next);
    var last := Or(At(m, |m| - 1), At(t, i - 1));
    var sibPrev := if m == [] then l.sibPrev else l.sibPrev[m[0] := At(t, i - 1)];
    var sibNext := if m == [] then l.sibNext else l.sibNext[m[|m| - 1] := next];
    Links(Moved(l.depPrev, m, p)[s := None],
          if i == 0 then l.depNext[p := first] else l.depNext,
          (if next.Some? then sibPrev[next.value := last] else sibPrev)[s := None],
          (if i > 0 then sibNext[t[i - 1] := first] else sibNext)[s := None])
  }

  lemma ChainSplice(l: Links, p: Id, t: seq<Id>, i: nat, q: Id, m: seq<Id>)
    requires Chain(l, p, t) && i < |t| && Stretch(l, q, m, None, None) && Distinct(m) && Apart(m, t)
    ensures Chain(SpliceLinks(l, p, t, i, m), p, Spliced(t, i, m))
  {
    var l' := SpliceLinks(l, p, t, i, m);
    var pre, post := t[..i], t[i + 1..];
    var first, last := Or(At(m, 0), At(t, i + 1)), Or(At(m, |m| - 1), At(t, i - 1));
    SpliceBefore(l, p, t, i, m);
    SpliceMiddle(l, p, t, i, q, m);
    SpliceAfter(l, p, t, i, m);
    assert At(post, 0) == At(t, i + 1) && At(pre, |pre| - 1) == At(t, i - 1);
    StretchJoin(l', p, pre, m, None, At(post, 0));
    assert At(pre + m, |pre + m| - 1) == last;
    StretchJoin(l', p, pre + m, post, None, None);
    DistinctSplice(t, i, m);
    assert At(Spliced(t, i, m), 0) == if i == 0 then first else At(t, 0);
  }

  lemma DistinctSplice(t: seq<Id>, i: nat, m: seq<Id>)
    requires Distinct(t) && Distinct(m) && Apart(m, t) && i < |t|
    ensures Distinct(Spliced(t, i, m))
  {
    DistinctJoin(t[..i], m);
    forall c | c in t[..i] + m ensures c !in t[i + 1..] { }
    DistinctJoin(t[..i] + m, t[i + 1..]);
  }

  lemma SpliceBefore(l: Links, p: Id, t: seq<Id>, i: nat, m: seq<Id>)
    requires Chain(l, p, t) && i < |t| && Apart(m, t)
    ensures Stretch(SpliceLinks(l, p, t, i, m), p, t[..i], None, Or(At(m, 0), At(t, i + 1)))
  {
    var l', pre := SpliceLinks(l, p, t, i, m), t[..i];
    var z := Or(At(m, 0), At(t, i + 1));
    StretchSplit(l, p, t, None, None, i);
    Neighbours(t, i);
    forall k | 0 <= k < |pre| ensures Relinked(l, l', p, pre, None, z, k) {
      assert ChildLinks(l, p, t, None, None, k) && t[k] in t && t[k] == pre[k];
    }
    StretchMoved(l, l', p, p, pre, None, Or(At(t, i), None), None, z);
  }

  lemma SpliceAfter(l: Links, p: Id, t: seq<Id>, i: nat, m: seq<Id>)
    requires Chain(l, p, t) && i < |t| && Apart(m, t)
    ensures Stretch(SpliceLinks(l, p, t, i, m), p, t[i + 1..], Or(At(m, |m| - 1), At(t, i - 1)), None)
  {
    var l', post := SpliceLinks(l, p, t, i, m), t[i + 1..];
    var x := Or(At(m, |m| - 1), At(t, i - 1));
    StretchSplit(l, p, t, None, None, i + 1);
    Neighbours(t, i);
    forall k | 0 <= k < |post| ensures Relinked(l, l', p, post, x, None, k) {
      assert ChildLinks(l, p, t, None, None, i + 1 + k) && t[i + 1 + k] in t && t[i + 1 + k] == post[k];
    }
    StretchMoved(l, l', p, p, post, Or(At(t, i), None), None, x, None);
  }

  lemma SpliceMiddle(l: Links, p: Id, t: seq<Id>, i: nat, q: Id, m: seq<Id>)
    requires Chain(l, p, t) && i < |t| && Stretch(l, q, m, None, None) && Distinct(m) && Apart(m, t)
    ensures Stretch(SpliceLinks(l, p, t, i, m), p, m, At(t, i - 1), At(t, i + 1))
  {
    var l' := SpliceLinks(l, p, t, i, m);
    Neighbours(t, i);
    var x, z := At(t, i - 1), At(t, i + 1);
    forall k | 0 <= k < |m| ensures Relinked(l, l', p, m, x, z, k) {
      assert ChildLinks(l, q, m, None, None, k) && m[k] in m;
    }
    StretchMoved(l, l', q, p, m, None, None, x, z);
  }

  lemma Neighbours(t: seq<Id>, i: nat)
    requires i < |t|
    ensures t[i] in t
    ensures i > 0 ==> t[i - 1] in t
    ensures i + 1 < |t| ==> t[i + 1] in t
  {
  }

  lemma SplicedMembers(t: seq<Id>, i: nat, m: seq<Id>, c: Id)
    requires i < |t|
    ensures c in Spliced(t, i, m) <==> c in t[..i] || c in m || c in t[i + 1..]
    ensures c in t && c != t[i] ==> c in Spliced(t, i, m)
  {
    if c in t && c != t[i] {
      var k :| 0 <= k < |t| && t[k] == c;
      if k < i { assert t[..i][k] == c; } else { assert t[i + 1..][k - i - 1] == c; }
    }
  }

  /** Both removals: `kids'` differs from `kids` at `p`, and at the stream taken out if that gives its children. */
  lemma ListedSplice(l: Links, kids: Kids, p: Id, i: nat, m: seq<Id>, l': Links, kids': Kids, c: Id)
    requires SameKeys(l, kids) && SameKeys(l', kids') && kids'.Keys == kids.Keys
    requires p in kids && i < |kids[p]| && c in kids && Listed(l, kids, c)
    requires Distinct(kids[p]) && kids[p][i] in kids
    requires kids'[p] == Spliced(kids[p], i, m)
    requires m == [] || m == kids[kids[p][i]]
    requires forall n :: n in kids && n != p && (n != kids[p][i] || m == []) ==> kids'[n] == kids[n]
    requires forall x :: x in kids[p] ==> x in kids && l.depPrev[x] == Some(p)
    requires forall x :: x in m ==> x in kids && l.depPrev[x] == Some(kids[p][i])
    requires kids[p][i] != p
    requires l'.depPrev == SpliceLinks(l, p, kids[p], i, m).depPrev
    requires l'.sibPrev == SpliceLinks(l, p, kids[p], i, m).sibPrev
    requires l'.sibNext == SpliceLinks(l, p, kids[p], i, m).sibNext
    ensures Accounted(l, l', kids, kids', if m == [] then {p} else {p, kids[p][i]}, c)
  {
    var t := kids[p];
    Neighbours(t, i);
    SplicedMembers(t, i, m, c);
    if m != [] { assert m[0] in m && m[|m| - 1] in m; }
    if c != t[i] && l.depPrev[c].Some? && l.depPrev[c] != Some(p) && c !in m {
      assert SameAt(l, l', c);
    }
  }

  lemma KidIsNotParent(l: Links, kids: Kids, p: Id, i: nat)
    requires Shape(l, kids) && p in kids && i < |kids[p]| && l.depPrev[p] != Some(p)
    ensures kids[p][i] in kids && kids[p][i] != p && Apart(kids[kids[p][i]], kids[p])
  {
    var s := kids[p][i];
    ChildOf(l, kids, p, s);
    forall c | c in kids[s] ensures c !in kids[p] {
      ChildOf(l, kids, s, c);
      if c in kids[p] { ChildOf(l, kids, p, c); }
    }
  }

  lemma AllTakeOut(l: Links, kids: Kids, p: Id, i: nat)
    requires Shape(l, kids) && p in kids && i < |kids[p]| && l.depPrev[p] != Some(p)
    ensures var l', kids' := SpliceLinks(l, p, kids[p], i, []), TakeOut(kids, p, i);
            forall c :: c in kids ==> Accounted(l, l', kids, kids', {p}, c)
  {
    hide Accounted, Spliced, SpliceLinks, Chain, Shape;
    var l', kids' := SpliceLinks(l, p, kids[p], i, []), TakeOut(kids, p, i);
    UntouchedTakeOut(l, kids, p, i);
    KidsOf(l, kids, p);
    KidIsNotParent(l, kids, p, i);
    DistinctKids(l, kids, p);
    forall c | c in kids ensures Accounted(l, l', kids, kids', {p}, c) {
      ListedOf(l, kids, c);
      ListedSplice(l, kids, p, i, [], l', kids', c);
    }
  }

  lemma DistinctKids(l: Links, kids: Kids, p: Id)
    requires Shape(l, kids) && p in kids
    ensures Distinct(kids[p])
  {
    assert Chain(l, p, kids[p]);
  }

  lemma UntouchedTakeOut(l: Links, kids: Kids, p: Id, i: nat)
    requires Shape(l, kids) && p in kids && i < |kids[p]| && l.depPrev[p] != Some(p)
    ensures Untouched(l, SpliceLinks(l, p, kids[p], i, []), kids, TakeOut(kids, p, i), {p})
    ensures Chain(SpliceLinks(l, p, kids[p], i, []), p, TakeOut(kids, p, i)[p])
  {
    hide Shape, Chain, Spliced, SpliceLinks;
    KidsOf(l, kids, p);
    ShapeKeys(l, kids);
    KeysSplice(l, kids, p, i, []);
    ChainSplice(l, p, kids[p], i, p, []);
  }

  lemma ShapeKeys(l: Links, kids: Kids)
    requires Shape(l, kids)
    ensures SameKeys(l, kids)
  {
  }

  lemma KeysSplice(l: Links, kids: Kids, p: Id, i: nat, m: seq<Id>)
    requires SameKeys(l, kids) && p in kids && i < |kids[p]|
    requires forall x :: x in kids[p] || x in m ==> x in kids
    ensures SameKeys(SpliceLinks(l, p, kids[p], i, m), kids)
    ensures forall n :: n in kids && n != p ==> SpliceLinks(l, p, kids[p], i, m).depNext[n] == l.depNext[n]
  {
    var l' := SpliceLinks(l, p, kids[p], i, m);
    Neighbours(kids[p], i);
    if m != [] { assert m[0] in m && m[|m| - 1] in m; }
    assert l'.depPrev.Keys == kids.Keys;
    assert l'.sibPrev.Keys == kids.Keys;
    assert l'.sibNext.Keys == kids.Keys;
  }

  lemma ShapeTakeOut(l: Links, kids: Kids, p: Id, i: nat)
    requires Shape(l, kids) && p in kids && i < |kids[p]| && l.depPrev[p] != Some(p)
    ensures Shape(SpliceLinks(l, p, kids[p], i, []), TakeOut(kids, p, i))
  {
    hide *;
    AllTakeOut(l, kids, p, i);
    UntouchedTakeOut(l, kids, p, i);
    ShapeFrom(l, SpliceLinks(l, p, kids[p], i, []), kids, TakeOut(kids, p, i), {p});
  }

  /** The links after nghttp2_stream_dep_remove. */
  function ReplaceLinks(l: Links, kids: Kids, p: Id, i: nat): Links
    requires p in kids && i < |kids[p]| && kids[p][i] in kids
  {
    var s := kids[p][i];
    var l1 := SpliceLinks(l, p, kids[p], i, kids[s]);
    l1.(depNext := l1.depNext[s := None])
  }

  lemma ChainsReplace(l: Links, kids: Kids, p: Id, i: nat)
    requires p in kids && i < |kids[p]| && kids[p][i] in kids && kids[p][i] != p
    requires Chain(l, p, kids[p]) && Chain(l, kids[p][i], kids[kids[p][i]]) && Apart(kids[kids[p][i]], kids[p])
    ensures var l', kids' := ReplaceLinks(l, kids, p, i), ReplaceByKids(kids, p, i);
            Chain(l', p, kids'[p]) && Chain(l', kids[p][i], kids'[kids[p][i]])
  {
    var s := kids[p][i];
    ChainSplice(l, p, kids[p], i, s, kids[s]);
    var l1, l' := SpliceLinks(l, p, kids[p], i, kids[s]), ReplaceLinks(l, kids, p, i);
    var t := Spliced(kids[p], i, kids[s]);
    forall k | 0 <= k < |t| ensures ChildLinks(l', p, t, None, None, k) {
      assert ChildLinks(l1, p, t, None, None, k);
    }
    hide Spliced, SpliceLinks;
  }

  lemma UntouchedReplace(l: Links, kids: Kids, p: Id, i: nat)
    requires Shape(l, kids) && p in kids && i < |kids[p]| && l.depPrev[p] != Some(p)
    ensures kids[p][i] in kids
    ensures var l', kids' := ReplaceLinks(l, kids, p, i), ReplaceByKids(kids, p, i);
            && Untouched(l, l', kids, kids', {p, kids[p][i]})
            && Chain(l', p, kids'[p]) && Chain(l', kids[p][i], kids'[kids[p][i]])
  {
    hide Shape, Chain, Spliced, SpliceLinks;
    KidIsNotParent(l, kids, p, i);
    var s := kids[p][i];
    KidsOf(l, kids, p);
    KidsOf(l, kids, s);
    ShapeKeys(l, kids);
    KeysSplice(l, kids, p, i, kids[s]);
    ChainsReplace(l, kids, p, i);
  }

  lemma AllReplace(l: Links, kids: Kids, p: Id, i: nat)
    requires Shape(l, kids) && p in kids && i < |kids[p]| && l.depPrev[p] != Some(p)
    ensures kids[p][i] in kids
    ensures var l', kids' := ReplaceLinks(l, kids, p, i), ReplaceByKids(kids, p, i);
            forall c :: c in kids ==> Accounted(l, l', kids, kids', {p, kids[p][i]}, c)
  {
    hide Spliced, SpliceLinks, Chain, SameAt, Shape;
    KidIsNotParent(l, kids, p, i);
    var s := kids[p][i];
    var l', kids' := ReplaceLinks(l, kids, p, i), ReplaceByKids(kids, p, i);
    UntouchedReplace(l, kids, p, i);
    KidsOf(l, kids, p);
    KidsOf(l, kids, s);
    DistinctKids(l, kids, p);
    forall c | c in kids ensures Accounted(l, l', kids, kids', {p, s}, c) {
      ListedOf(l, kids, c);
      ListedSplice(l, kids, p, i, kids[s], l', kids', c);
    }
  }

  lemma ListedOf(l: Links, kids: Kids, c: Id)
    requires Shape(l, kids) && c in kids
    ensures SameKeys(l, kids) && Listed(l, kids, c)
  {
  }

  lemma ShapeReplace(l: Links, kids: Kids, p: Id, i: nat)
    requires Shape(l, kids) && p in kids && i < |kids[p]| && l.depPrev[p] != Some(p)
    ensures kids[p][i] in kids
    ensures Shape(ReplaceLinks(l, kids, p, i), ReplaceByKids(kids, p, i))
  {
    hide *;
    AllReplace(l, kids, p, i);
    UntouchedReplace(l, kids, p, i);
    ShapeFrom(l, ReplaceLinks(l, kids, p, i), kids, ReplaceByKids(kids, p, i), {p, kids[p][i]});
  }
}
