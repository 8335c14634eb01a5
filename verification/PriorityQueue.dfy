/**
 * The intrusive binary heap of lib/nghttp2_pq.c.  An entry carries its own position, so that it can be
 * removed from the middle; here that is the map `index`.  As long as the comparison is a strict weak order on the
 * queued entries it is a heap; whatever the comparison is, the positions stay right and no entry is lost.
 */
module PriorityQueue {
  type Entry = nat
  type Order = (Entry, Entry) -> bool

  /** What the heap needs of its comparison, on the entries it holds. */
  ghost predicate StrictWeakOrder(less: Order, s: set<Entry>)
  {
    && (forall a :: a in s ==> !less(a, a))
    && (forall a, b, c :: a in s && b in s && c in s && less(a, b) && less(b, c) ==> less(a, c))
    && (forall a, b, c :: a in s && b in s && c in s && !less(a, b) && !less(b, c) ==> !less(a, c))
  }

  function Parent(k: nat): (p: nat)
    requires k > 0
    ensures p < k && (k == 2 * p + 1 || k == 2 * p + 2)
  {
    (k - 1) / 2
  }

  predicate Ok(q: seq<Entry>, less: Order, k: nat)
    requires 0 < k < |q|
  {
    !less(q[k], q[Parent(k)])
  }

  /** Every entry whose parent is at `lo` or later is not before its parent. */
  ghost predicate HeapFrom(q: seq<Entry>, less: Order, lo: nat)
  {
    forall k :: 0 < k < |q| && Parent(k) >= lo ==> Ok(q, less, k)
  }

  ghost predicate Heap(q: seq<Entry>, less: Order) { HeapFrom(q, less, 0) }

  /** A heap but for the entry at `h` and its parent. */
  ghost predicate HoleAbove(q: seq<Entry>, less: Order, h: nat)
  {
    && (forall k :: 0 < k < |q| && k != h ==> Ok(q, less, k))
    && (forall k :: 0 < k < |q| && Parent(k) == h && h > 0 ==> !less(q[k], q[Parent(h)]))
  }

  /** A heap from `lo` but for the entry at `h` and its children. */
  ghost predicate HoleBelow(q: seq<Entry>, less: Order, h: nat, lo: nat)
  {
    && (forall k :: 0 < k < |q| && Parent(k) >= lo && Parent(k) != h ==> Ok(q, less, k))
    && (forall k :: 0 < k < |q| && Parent(k) == h && h > 0 && Parent(h) >= lo ==> !less(q[k], q[Parent(h)]))
  }

  function Entries(q: seq<Entry>): set<Entry> { set x | x in q }

  function Swapped(q: seq<Entry>, i: nat, j: nat): seq<Entry>
    requires i < |q| && j < |q|
  {
    q[i := q[j]][j := q[i]]
  }

  /** The entry at the root is least. */
  lemma {:induction false} RootLeast(q: seq<Entry>, less: Order, k: nat)
    requires Heap(q, less) && StrictWeakOrder(less, Entries(q)) && k < |q|
    ensures !less(q[k], q[0])
    decreases k
  {
    if k > 0 {
      RootLeast(q, less, Parent(k));
      assert Ok(q, less, k);
    }
  }

  lemma UpStep(q: seq<Entry>, less: Order, h: nat)
    requires 0 < h < |q| && HoleAbove(q, less, h) && StrictWeakOrder(less, Entries(q))
    requires less(q[h], q[Parent(h)])
    ensures HoleAbove(Swapped(q, Parent(h), h), less, Parent(h))
  {
    var p := Parent(h);
    var s := Swapped(q, p, h);
    assert q[h] in Entries(q) && q[p] in Entries(q);
    forall k | 0 < k < |s| && k != p ensures Ok(s, less, k) {
      if k != h { assert Ok(q, less, k); }
      assert q[k] in Entries(q);
    }
    forall k | 0 < k < |s| && Parent(k) == p && p > 0 ensures !less(s[k], s[Parent(p)]) {
      assert Ok(q, less, p);
      assert q[k] in Entries(q) && q[Parent(p)] in Entries(q);
      if k != h { assert Ok(q, less, k); }
    }
  }

  lemma UpDone(q: seq<Entry>, less: Order, h: nat)
    requires HoleAbove(q, less, h)
    requires h > 0 && h < |q| ==> !less(q[h], q[Parent(h)])
    ensures Heap(q, less)
  {
  }

  /** `m` is the child of `h` that is least, and before the entry at `h`. */
  lemma DownStep(q: seq<Entry>, less: Order, h: nat, lo: nat, m: nat)
    requires 0 < m < |q| && Parent(m) == h && lo <= h
    requires HoleBelow(q, less, h, lo) && StrictWeakOrder(less, Entries(q))
    requires less(q[m], q[h])
    requires forall k :: 0 < k < |q| && Parent(k) == h ==> !less(q[k], q[m])
    ensures HoleBelow(Swapped(q, h, m), less, m, lo)
  {
    var s := Swapped(q, h, m);
    forall k | 0 < k < |s| && Parent(k) >= lo && Parent(k) != m ensures Ok(s, less, k) {
      assert q[k] in Entries(q) && q[m] in Entries(q) && q[h] in Entries(q);
      if k != h && Parent(k) != h { assert Ok(q, less, k); }
    }
    forall k | 0 < k < |s| && Parent(k) == m && m > 0 && Parent(m) >= lo ensures !less(s[k], s[Parent(m)]) {
      assert Ok(q, less, k);
    }
  }

  lemma DownDone(q: seq<Entry>, less: Order, h: nat, lo: nat)
    requires HoleBelow(q, less, h, lo)
    requires forall k :: 0 < k < |q| && Parent(k) == h ==> !less(q[k], q[h])
    ensures HeapFrom(q, less, lo)
  {
  }

  ghost predicate Positions(q: seq<Entry>, index: map<Entry, nat>)
  {
    && (forall i :: 0 <= i < |q| ==> q[i] in index && index[q[i]] == i)
    && (forall x :: x in index ==> index[x] < |q| && q[index[x]] == x)
  }

  /** The last entry takes the place of the one at `k`. */
  function Dropped(q: seq<Entry>, k: nat): seq<Entry>
    requires k < |q|
  {
    q[k := q[|q| - 1]][..|q| - 1]
  }

  lemma DropPositions(q: seq<Entry>, index: map<Entry, nat>, k: nat)
    requires Positions(q, index) && k < |q|
    ensures Positions(Dropped(q, k), index[q[|q| - 1] := k] - {q[k]})
    ensures (index[q[|q| - 1] := k] - {q[k]}).Keys == index.Keys - {q[k]}
  {
    var last := q[|q| - 1];
    var q', index' := Dropped(q, k), index[last := k] - {q[k]};
    forall i | 0 <= i < |q'| ensures q'[i] in index' && index'[q'[i]] == i {
      assert q'[i] == if i == k then last else q[i];
      assert index[q[i]] == i && index[last] == |q| - 1;
    }
    forall x | x in index' ensures index'[x] < |q'| && q'[index'[x]] == x {
      if x != last { assert index[x] != k && index[x] != |q| - 1; }
    }
  }

  class Pq {
    var q: seq<Entry>
    var index: map<Entry, nat>
    var less: Order

    /** Every queued entry knows where it is, and only those do. */
    ghost predicate Linked()
      reads this
    {
      Positions(q, index)
    }

    ghost predicate Valid()
      reads this
    {
      Linked() && StrictWeakOrder(less, index.Keys) && Heap(q, less)
    }

    lemma Keys()
      requires Linked()
      ensures Entries(q) == index.Keys
    {
      forall x | x in index ensures x in q { assert q[index[x]] == x; }
    }

    /** Nothing queued is a heap, whatever the comparison. */
    lemma NothingQueued()
      requires Linked() && index == map[]
      ensures Valid()
    {
      Keys();
      assert forall k :: 0 <= k < |q| ==> q[k] in index;
    }

    constructor (less: Order)
      ensures Valid() && index == map[] && this.less == less
    {
      this.q, this.index, this.less := [], map[], less;
    }

    /** The queue that is embedded in a stream. */
    constructor Embedded(q: seq<Entry>, index: map<Entry, nat>, less: Order)
      requires Positions(q, index)
      ensures Linked() && this.q == q && this.index == index && this.less == less
    {
      this.q, this.index, this.less := q, index, less;
    }

    method Swap(i: nat, j: nat)
      requires Linked() && i < |q| && j < |q|
      modifies this
      ensures Linked() && less == old(less) && index.Keys == old(index.Keys)
      ensures q == Swapped(old(q), i, j)
    {
      var a, b := q[i], q[j];
      q := q[i := b];
      index := index[b := i];
      q := q[j := a];
      index := index[a := j];
    }

    /** `ordered` tells that the comparison is an order and only the entry at `start` may be out of place. */
    method BubbleUp(start: nat, ghost ordered: bool)
      requires Linked() && start < |q|
      requires ordered ==> StrictWeakOrder(less, index.Keys) && HoleAbove(q, less, start)
      modifies this
      ensures Linked() && less == old(less) && index.Keys == old(index.Keys) && |q| == old(|q|)
      ensures ordered ==> Valid()
    {
      var h := start;
      while h != 0
        invariant Linked() && less == old(less) && index.Keys == old(index.Keys) && |q| == old(|q|)
        invariant 0 <= h < |q| && (ordered ==> HoleAbove(q, less, h))
        decreases h
      {
        Keys();
        var parent := (h - 1) / 2;
        if !less(q[h], q[parent]) {
          if ordered { UpDone(q, less, h); }
          return;
        }
        if ordered { UpStep(q, less, h); }
        Swap(parent, h);
        h := parent;
      }
      if ordered { UpDone(q, less, h); }
    }

    method BubbleDown(start: nat, ghost lo: nat, ghost ordered: bool)
      requires Linked() && lo <= start && (start < |q| || q == [])
      requires ordered ==> StrictWeakOrder(less, index.Keys) && HoleBelow(q, less, start, lo)
      modifies this
      ensures Linked() && (ordered ==> HeapFrom(q, less, lo))
      ensures less == old(less) && index.Keys == old(index.Keys) && |q| == old(|q|)
    {
      var h := start;
      while true
        invariant Linked() && less == old(less) && index.Keys == old(index.Keys) && |q| == old(|q|)
        invariant lo <= h && (h < |q| || q == []) && (ordered ==> HoleBelow(q, less, h, lo))
        decreases |q| - h
      {
        Keys();
        var m := LeastOf(h, ordered);
        if m == h {
          if ordered { DownDone(q, less, h, lo); }
          return;
        }
        if ordered { DownStep(q, less, h, lo, m); }
        Swap(h, m);
        h := m;
      }
    }

    /** The inner loop of bubble_down: the least of an entry and its at most two children. */
    method LeastOf(h: nat, ghost ordered: bool) returns (m: nat)
      requires (ordered ==> StrictWeakOrder(less, Entries(q))) && (h < |q| || q == [])
      ensures m == h || (0 < m < |q| && Parent(m) == h)
      ensures ordered && m != h ==> less(q[m], q[h])
      ensures ordered && h < |q| ==> forall k :: 0 < k < |q| && Parent(k) == h ==> !less(q[k], q[m])
    {
      m := h;
      var j := h * 2 + 1;
      var i := 0;
      while i < 2
        invariant 0 <= i <= 2 && j == h * 2 + 1 + i
        invariant m == h || (h * 2 + 1 <= m < j && m < |q|)
        invariant ordered && m != h ==> less(q[m], q[h])
        invariant ordered ==> forall k :: h * 2 + 1 <= k < j && k < |q| ==> !less(q[k], q[m])
      {
        if j >= |q| { break; }
        assert q[j] in Entries(q) && q[m] in Entries(q) && q[h] in Entries(q);
        ghost var before := m;
        if less(q[j], q[m]) { m := j; }
        if ordered {
          forall k | h * 2 + 1 <= k < j + 1 && k < |q| ensures !less(q[k], q[m]) {
            assert q[k] in Entries(q);
          }
        }
        i, j := i + 1, j + 1;
      }
      assert m != h ==> Parent(m) == h;
    }

    /** The keys of entries outside the queue have changed; those inside compare as before. */
    method Reorder(now: Order)
      requires Linked() && forall a, b :: a in index && b in index ==> now(a, b) == less(a, b)
      modifies this`less
      ensures Linked() && less == now && (old(Valid()) ==> Valid())
    {
      ghost var was, ordered := less, Valid();
      less := now;
      if ordered {
        forall k | 0 < k < |q| ensures Ok(q, less, k) {
          assert Ok(q, was, k) && q[k] in index && q[Parent(k)] in index;
        }
      }
    }

    method Push(x: Entry)
      requires Linked() && x !in index
      modifies this
      ensures Linked() && less == old(less) && index.Keys == old(index.Keys) + {x}
      ensures old(Valid()) && StrictWeakOrder(less, index.Keys) ==> Valid()
    {
      ghost var before, ordered := q, Valid() && StrictWeakOrder(less, index.Keys + {x});
      q := q + [x];
      index := index[x := |q| - 1];
      assert index.Keys == old(index.Keys) + {x};
      if ordered {
        forall k | 0 < k < |q| && k != |q| - 1 ensures Ok(q, less, k) { assert Ok(before, less, k); }
      }
      BubbleUp(|q| - 1, ordered);
    }

    /** nghttp2_pq_top: an entry that no queued entry is before, or nothing exactly when the queue is empty. */
    method Top() returns (found: bool, x: Entry)
      requires Linked()
      ensures found <==> index != map[]
      ensures found ==> x in index && (Valid() ==> forall y :: y in index ==> !less(y, x))
    {
      if |q| == 0 { return false, 0; }
      x := q[0];
      found := true;
      Keys();
      if Valid() {
        forall y | y in index ensures !less(y, x) { RootLeast(q, less, index[y]); }
      }
    }

    method Pop()
      requires Linked()
      modifies this
      ensures Linked() && less == old(less) && (old(Valid()) ==> Valid())
      ensures old(q) == [] ==> index == old(index)
      ensures old(q) != [] ==> index.Keys == old(index.Keys) - {old(q)[0]}
    {
      if |q| > 0 {
        ghost var ordered := Valid();
        if ordered { RootHole(q, less); }
        Drop(0);
        BubbleDown(0, 0, ordered);
      }
    }

    method Drop(k: nat)
      requires Linked() && k < |q|
      modifies this
      ensures Linked() && less == old(less)
      ensures index.Keys == old(index.Keys) - {old(q)[k]}
      ensures q == Dropped(old(q), k)
    {
      DropPositions(q, index, k);
      var x, last := q[k], q[|q| - 1];
      q := q[k := last];
      index := index[last := k];
      q := q[..|q| - 1];
      index := index - {x};
    }

    method Remove(x: Entry)
      requires Linked() && x in index
      modifies this
      ensures Linked() && less == old(less) && index.Keys == old(index.Keys) - {x} && (old(Valid()) ==> Valid())
    {
      var k := index[x];
      if k == 0 {
        Pop();
        return;
      }
      Keys();
      ghost var ordered := Valid();
      if k == |q| - 1 {
        if ordered { LastDropped(q, less); }
        Drop(k);
        return;
      }
      if ordered { ReplacedHole(q, less, k); }
      hide Heap;
      Drop(k);
      if less(x, q[k]) {
        BubbleDown(k, 0, ordered);
      } else {
        BubbleUp(k, ordered);
      }
    }

    /**
     * nghttp2_pq_update after its callback has changed the keys of the entries, so that their order is `now`.
     */
    method Update(now: Order)
      requires Linked() && StrictWeakOrder(now, index.Keys)
      modifies this
      ensures Valid() && less == now && index.Keys == old(index.Keys)
    {
      less := now;
      var i := |q|;
      while i > 0
        invariant 0 <= i <= |q| && Linked() && less == now && index.Keys == old(index.Keys)
        invariant HeapFrom(q, less, i)
      {
        BubbleDown(i - 1, i - 1, true);
        i := i - 1;
      }
    }
  }

  lemma RootHole(s: seq<Entry>, less: Order)
    requires Heap(s, less) && s != []
    ensures HoleBelow(Dropped(s, 0), less, 0, 0)
  {
    var q := Dropped(s, 0);
    forall k | 0 < k < |q| && Parent(k) != 0 ensures Ok(q, less, k) { assert Ok(s, less, k); }
  }

  lemma LastDropped(s: seq<Entry>, less: Order)
    requires Heap(s, less) && s != []
    ensures Heap(Dropped(s, |s| - 1), less)
  {
    var q := Dropped(s, |s| - 1);
    forall k | 0 < k < |q| ensures Ok(q, less, k) { assert Ok(s, less, k); }
  }

  /** Replacing an entry leaves a hole on one side only, told by comparing the two entries. */
  lemma ReplacedHole(s: seq<Entry>, less: Order, h: nat)
    requires Heap(s, less) && StrictWeakOrder(less, Entries(s)) && 0 < h < |s| - 1
    ensures var q := Dropped(s, h);
            && (less(s[h], q[h]) ==> HoleBelow(q, less, h, 0))
            && (!less(s[h], q[h]) ==> HoleAbove(q, less, h))
  {
    var q := Dropped(s, h);
    var p := Parent(h);
    assert Ok(s, less, h);
    assert s[h] in Entries(s) && s[|q|] in Entries(s) && s[p] in Entries(s);
    forall k | 0 < k < |q| && k != h && Parent(k) != h ensures Ok(q, less, k) { assert Ok(s, less, k); }
    forall k | 0 < k < |q| && Parent(k) == h ensures !less(q[k], s[h]) && !less(q[k], q[p]) {
      assert Ok(s, less, k) && s[k] in Entries(s);
    }
  }
}
