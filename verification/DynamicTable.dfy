/** The dynamic table of section 4 of RFC 7541 as a value: newest entry first. */
module DynamicTable {
  import opened Bytes
  import opened StaticTable

  const ENTRY_OVERHEAD := 32

  type Table = seq<Field>

  function Room(f: Field): (r: nat) { ENTRY_OVERHEAD + |f.name| + |f.value| }

  function Size(t: Table): nat
  {
    if t == [] then 0 else Size(t[..|t| - 1]) + Room(t[|t| - 1])
  }

  /** Drops oldest entries until what is left fits `bound` (or nothing is left). */
  function EvictTo(t: Table, bound: int): (r: Table)
    ensures r <= t
  {
    if t == [] || Size(t) <= bound then t else EvictTo(t[..|t| - 1], bound)
  }

  /** Section 4.4: evict to make room, then add unless the entry alone is too large. */
  function Insert(t: Table, f: Field, max: nat): Table
  {
    var kept := EvictTo(t, max - Room(f));
    if Room(f) > max then kept else [f] + kept
  }

  lemma {:induction false} SizeOfPrefix(t: Table, n: nat)
    requires n <= |t|
    ensures Size(t[..n]) <= Size(t)
    decreases |t|
  {
    if n == |t| {
      assert t[..n] == t;
    } else {
      assert t[..|t| - 1][..n] == t[..n];
      SizeOfPrefix(t[..|t| - 1], n);
    }
  }

  lemma {:induction false} SizeOfCons(f: Field, t: Table)
    ensures Size([f] + t) == Room(f) + Size(t)
  {
    var u := [f] + t;
    if t == [] {
      assert u[..0] == [];
    } else {
      assert u[..|u| - 1] == [f] + t[..|t| - 1];
      SizeOfCons(f, t[..|t| - 1]);
    }
  }

  /** All names and values of a table. */
  function Text(t: Table): Bytes { if t == [] then [] else t[0].name + t[0].value + Text(t[1..]) }

  /** Section 4.1: 32 bytes of overhead for every entry. */
  lemma {:induction false} SizeIsText(t: Table)
    ensures Size(t) == 32 * |t| + |Text(t)|
  {
    if t != [] {
      assert t == [t[0]] + t[1..];
      SizeOfCons(t[0], t[1..]);
      SizeIsText(t[1..]);
    }
  }

  lemma {:induction false} CountBySize(t: Table)
    ensures 32 * |t| <= Size(t)
  {
    if t != [] {
      CountBySize(t[..|t| - 1]);
    }
  }

  lemma {:induction false} EvictFits(t: Table, bound: int)
    ensures EvictTo(t, bound) == [] || Size(EvictTo(t, bound)) <= bound
    ensures bound >= 0 ==> Size(EvictTo(t, bound)) <= bound
  {
    if t == [] || Size(t) <= bound {
    } else {
      EvictFits(t[..|t| - 1], bound);
    }
  }

  /** `r` is the longest prefix of `t`, newest entries first, that fits `bound`; nothing if none does. */
  ghost predicate LongestFitting(t: Table, r: Table, bound: int)
  {
    && r <= t && (r == [] || Size(r) <= bound)
    && forall n :: |r| < n <= |t| ==> Size(t[..n]) > bound
  }

  /** Eviction drops no entry that could stay. */
  lemma {:induction false} EvictLongest(t: Table, bound: int)
    ensures LongestFitting(t, EvictTo(t, bound), bound)
  {
    if t == [] || Size(t) <= bound {
    } else {
      var s := t[..|t| - 1];
      EvictLongest(s, bound);
      forall n | |EvictTo(t, bound)| < n <= |t| ensures Size(t[..n]) > bound {
        if n < |t| { assert s[..n] == t[..n]; } else { assert t[..n] == t; }
      }
    }
  }

  /** That says what eviction is. */
  lemma LongestIsUnique(t: Table, r: Table, bound: int)
    requires LongestFitting(t, r, bound)
    ensures r == EvictTo(t, bound)
  {
    var e := EvictTo(t, bound);
    EvictLongest(t, bound);
    assert t[..|r|] == r && t[..|e|] == e;
  }

  /** What an insertion leaves: the new entry, if it fits at all, before the longest prefix it leaves room for. */
  lemma InsertKeeps(t: Table, f: Field, max: nat)
    ensures var r := Insert(t, f, max);
            if Room(f) > max then r == []
            else r != [] && r[0] == f && LongestFitting(t, r[1..], max - Room(f))
  {
    EvictLongest(t, max - Room(f));
    assert ([f] + EvictTo(t, max - Room(f)))[1..] == EvictTo(t, max - Room(f));
    if Room(f) > max { EvictFits(t, max - Room(f)); }
  }

  /** Eviction keeps the longest prefix that fits, hence evicting twice is evicting once to the smaller bound. */
  lemma {:induction false} EvictTwice(t: Table, a: int, b: int)
    ensures EvictTo(EvictTo(t, a), b) == EvictTo(t, Min(a, b))
  {
    if t == [] || Size(t) <= a {
      if a < b {
        EvictNothing(t, a);
        EvictNothing(t, b);
      }
    } else {
      EvictTwice(t[..|t| - 1], a, b);
    }
  }

  lemma EvictNothing(t: Table, a: int)
    requires t == [] || Size(t) <= a
    ensures EvictTo(t, a) == t
  {
  }

  /** The size of the table never passes its maximum, whatever is inserted. */
  lemma InsertFits(t: Table, f: Field, max: nat)
    ensures Size(Insert(t, f, max)) <= max
  {
    EvictFits(t, max - Room(f));
    SizeOfCons(f, EvictTo(t, max - Room(f)));
  }

  // ---- the joint index space of section 2.3.3 ----------------------------

  function IndexLimit(t: Table): nat { STATIC_TABLE_LENGTH + |t| }

  function Lookup(t: Table, idx: nat): Field
    requires idx < IndexLimit(t)
  {
    if idx < STATIC_TABLE_LENGTH then StaticField(idx) else t[idx - STATIC_TABLE_LENGTH]
  }
}
