/**
 * nghttp2_hd_context with the deflater's hash index (lib/nghttp2_hd.c): a ring of entries and 128 chains
 * over the same entries, kept in step by insertion and eviction.
 */
module TableObject {
  import opened Bytes
  import opened StaticTable
  import opened DynamicTable
  import opened RingBuffer
  import D = Deflate

  const MAP_SIZE := 128
  const SEQ_WRAP := 0x1_0000_0000

  /** nghttp2_hd_entry; a chain holds entries by value, and `number` (the source's seq) tells them apart. */
  datatype Entry = Entry(field: Field, token: int, number: nat, hash: nat)

  function FieldsOf(es: seq<Entry>): (t: Table)
    ensures |t| == |es|
    ensures forall i :: 0 <= i < |es| ==> t[i] == es[i].field
  {
    seq(|es|, i requires 0 <= i < |es| => es[i].field)
  }

  // ---- chains -------------------------------------------------------------

  /** `hash & (HD_MAP_SIZE - 1)`. */
  function Bucket(hash: nat): (h: nat)
    ensures h < MAP_SIZE
  {
    hash % MAP_SIZE
  }

  /** The entries of one bucket, in table order. */
  function Chain(es: seq<Entry>, h: nat): (c: seq<Entry>)
    ensures |c| <= |es|
  {
    if es == [] then []
    else if Bucket(es[0].hash) == h then [es[0]] + Chain(es[1..], h)
    else Chain(es[1..], h)
  }

  lemma {:induction false} ChainAppend(a: seq<Entry>, b: seq<Entry>, h: nat)
    ensures Chain(a + b, h) == Chain(a, h) + Chain(b, h)
  {
    hide Bucket;
    if a == [] {
      assert a + b == b;
    } else {
      assert (a + b)[1..] == a[1..] + b;
      ChainAppend(a[1..], b, h);
      if Bucket(a[0].hash) == h {
        assert [a[0]] + (Chain(a[1..], h) + Chain(b, h)) == [a[0]] + Chain(a[1..], h) + Chain(b, h);
      }
    }
  }

  lemma ChainOfPrefix(es: seq<Entry>, h: nat)
    requires es != []
    ensures var last := es[|es| - 1];
            Chain(es, h) == Chain(es[..|es| - 1], h) + (if Bucket(last.hash) == h then [last] else [])
  {
    hide Bucket;
    var last := es[|es| - 1];
    assert es == es[..|es| - 1] + [last];
    ChainAppend(es[..|es| - 1], [last], h);
    assert [last][1..] == [];
  }

  lemma {:induction false} ChainMember(es: seq<Entry>, h: nat, e: Entry)
    requires e in Chain(es, h)
    ensures e in es && Bucket(e.hash) == h
  {
    if Bucket(es[0].hash) == h && e == es[0] {
    } else {
      ChainMember(es[1..], h, e);
    }
  }

  function FirstNamed(es: seq<Entry>, name: Bytes): Option<Entry>
  {
    if es == [] then None else if es[0].field.name == name then Some(es[0]) else FirstNamed(es[1..], name)
  }

  function FirstEqual(es: seq<Entry>, f: Field): Option<Entry>
  {
    if es == [] then None else if es[0].field == f then Some(es[0]) else FirstEqual(es[1..], f)
  }

  /** Hashing by name: entries of one name share a chain, so the chain finds what the whole table would. */
  lemma {:induction false} ChainFinds(es: seq<Entry>, h: nat, f: Field)
    requires forall i :: 0 <= i < |es| && es[i].field.name == f.name ==> Bucket(es[i].hash) == h
    ensures FirstNamed(Chain(es, h), f.name) == FirstNamed(es, f.name)
    ensures FirstEqual(Chain(es, h), f) == FirstEqual(es, f)
  {
    if es != [] {
      ChainFinds(es[1..], h, f);
      if Bucket(es[0].hash) == h {
        assert Chain(es, h)[1..] == Chain(es[1..], h);
      } else {
        assert Chain(es, h) == Chain(es[1..], h);
      }
    }
  }

  lemma {:induction false} FirstNamedAt(es: seq<Entry>, name: Bytes, i: nat)
    requires i <= |es|
    ensures var k := D.FindName(FieldsOf(es), name, i);
            FirstNamed(es[i..], name) == if k == -1 then None else Some(es[k])
    decreases |es| - i
  {
    if i < |es| {
      FirstNamedAt(es, name, i + 1);
      assert es[i..][1..] == es[i + 1..];
    }
  }

  lemma {:induction false} FirstEqualAt(es: seq<Entry>, f: Field, i: nat)
    requires i <= |es|
    ensures var k := D.FindField(FieldsOf(es), f, i);
            FirstEqual(es[i..], f) == if k == -1 then None else Some(es[k])
    decreases |es| - i
  {
    if i < |es| {
      FirstEqualAt(es, f, i + 1);
      assert es[i..][1..] == es[i + 1..];
    }
  }

  // ---- sequence numbers ---------------------------------------------------

  /** The number of the entry at position i when `next` is handed out next. */
  function SeqAt(next: nat, i: nat): nat
    requires next < SEQ_WRAP && i < SEQ_WRAP
  {
    (next + SEQ_WRAP - 1 - i) % SEQ_WRAP
  }

  /** `next_seq - 1 - seq` in 32-bit arithmetic is the position, however often the counter has wrapped. */
  lemma PositionFromSeq(next: nat, i: nat)
    requires next < SEQ_WRAP && i < SEQ_WRAP
    ensures (next + 2 * SEQ_WRAP - 1 - SeqAt(next, i)) % SEQ_WRAP == i
  {
  }

  lemma SeqAfterInsert(next: nat, i: nat)
    requires next < SEQ_WRAP && i + 1 < SEQ_WRAP
    ensures SeqAt((next + 1) % SEQ_WRAP, i + 1) == SeqAt(next, i)
    ensures SeqAt((next + 1) % SEQ_WRAP, 0) == next
  {
  }

  /** Entries carry their names' tokens and hashes and are numbered from the front. */
  ghost predicate WellFormed(es: seq<Entry>, next: nat, hashOf: Bytes -> nat)
  {
    && |es| < SEQ_WRAP && next < SEQ_WRAP
    && forall i :: 0 <= i < |es| ==>
        && es[i].token == TokenOf(es[i].field.name)
        && es[i].hash == hashOf(es[i].field.name)
        && es[i].number == SeqAt(next, i)
  }

  /** The comparison in hd_map_find is equality of names. */
  lemma MatchIsNameEquality(e: Entry, name: Bytes, hashOf: Bytes -> nat)
    requires e.token == TokenOf(e.field.name) && e.hash == hashOf(e.field.name)
    ensures var token := TokenOf(name);
            (token == e.token && (token != -1 || (hashOf(name) == e.hash && e.field.name == name)))
            <==> e.field.name == name
  {
    hide TokenName;
  }

  /** A chain without the first occurrence of an entry. */
  function Unlinked(c: seq<Entry>, e: Entry): seq<Entry>
  {
    if c == [] then [] else if c[0] == e then c[1..] else [c[0]] + Unlinked(c[1..], e)
  }

  lemma {:induction false} UnlinkedAt(c: seq<Entry>, e: Entry, i: nat)
    requires i < |c| && c[i] == e && e !in c[..i]
    ensures Unlinked(c, e) == c[..i] + c[i + 1..]
  {
    if i > 0 {
      assert c[0] in c[..i];
      assert c[1..][..i - 1] == c[1..i] && c[1..][i..] == c[i + 1..];
      assert forall x :: x in c[1..i] ==> x in c[..i];
      UnlinkedAt(c[1..], e, i - 1);
      assert c[..i] == [c[0]] + c[1..i];
    }
  }

  lemma {:induction false} UnlinkedAbsent(c: seq<Entry>, e: Entry)
    requires e !in c
    ensures Unlinked(c, e) == c
  {
    if c != [] { UnlinkedAbsent(c[1..], e); }
  }

  class HdContext {
    const ring: RingBuf<Entry>
    const hasMap: bool
    const hashOf: Bytes -> nat
    var buckets: seq<seq<Entry>>
    var bufsize: nat
    var max: nat
    var nextSeq: nat

    ghost predicate Valid()
      reads this, ring, ring.buffer
    {
      && ring.Valid()
      && WellFormed(ring.items, nextSeq, hashOf)
      && bufsize == Size(Table()) <= UINT32_MAX && max <= UINT32_MAX
      && (hasMap ==> |buckets| == MAP_SIZE && forall h :: 0 <= h < MAP_SIZE ==> buckets[h] == Chain(ring.items, h))
    }

    ghost function Table(): Table
      reads this, ring
    {
      FieldsOf(ring.items)
    }

    constructor (hasMap: bool, hashOf: Bytes -> nat)
      ensures Valid() && fresh(ring) && fresh(ring.buffer)
      ensures Table() == [] && max == D.DEFAULT_TABLE_SIZE && this.hasMap == hasMap && this.hashOf == hashOf
    {
      ring := new RingBuf(D.DEFAULT_TABLE_SIZE / ENTRY_OVERHEAD);
      this.hasMap, this.hashOf := hasMap, hashOf;
      buckets := seq(MAP_SIZE, _ => []);
      bufsize, max, nextSeq := 0, D.DEFAULT_TABLE_SIZE, 0;
    }

    /** hd_map_find, against the whole table rather than one chain. */
    method MapFind(f: Field, nameOnly: bool) returns (res: Option<Entry>, exact: bool)
      requires Valid() && hasMap
      ensures exact <==> !nameOnly && FirstEqual(ring.items, f).Some?
      ensures res == if exact then FirstEqual(ring.items, f) else FirstNamed(ring.items, f.name)
    {
      var token, hash := TokenOf(f.name), hashOf(f.name);
      var chain := buckets[Bucket(hash)];
      ChainFinds(ring.items, Bucket(hash), f);
      res, exact := None, false;
      var i := 0;
      assert chain[0..] == chain;
      while i < |chain|
        invariant 0 <= i <= |chain|
        invariant FirstEqual(chain, f) == FirstEqual(chain[i..], f)
        invariant FirstNamed(chain, f.name) == if res.Some? then res else FirstNamed(chain[i..], f.name)
        invariant res.Some? ==> !nameOnly
      {
        var p := chain[i];
        ChainMember(ring.items, Bucket(hash), p);
        MatchIsNameEquality(p, f.name, hashOf);
        assert chain[i..][1..] == chain[i + 1..];
        if token != p.token || (token == -1 && (hash != p.hash || p.field.name != f.name)) {
          i := i + 1;
          continue;
        }
        if res.None? {
          res := Some(p);
          if nameOnly {
            return;
          }
        }
        if p.field.value == f.value {
          res, exact := Some(p), true;
          return;
        }
        i := i + 1;
      }
    }

    /** hd_map_remove: unlinks an entry from its chain, wherever it is. */
    method MapRemove(e: Entry)
      requires |buckets| == MAP_SIZE
      modifies this`buckets
      ensures var h := Bucket(e.hash); buckets == old(buckets)[h := Unlinked(old(buckets)[h], e)]
    {
      var h := Bucket(e.hash);
      var chain := buckets[h];
      var i := 0;
      while i < |chain|
        invariant 0 <= i <= |chain| && e !in chain[..i]
        invariant buckets == old(buckets)
      {
        if chain[i] == e {
          UnlinkedAt(chain, e, i);
          buckets := buckets[h := chain[..i] + chain[i + 1..]];
          return;
        }
        i := i + 1;
      }
      UnlinkedAbsent(chain, e);
      assert buckets[h := chain] == buckets;
    }

    /** The body of both eviction loops: the oldest entry leaves the ring, the size and its chain. */
    method EvictOldest()
      requires Valid() && ring.len > 0
      modifies this`bufsize, this`buckets, ring
      ensures Valid() && ring.buffer == old(ring.buffer)
      ensures Table() == old(Table())[..|old(Table())| - 1]
    {
      hide TokenOf, SeqAt, Slot, Divides, WellFormed, Chain;
      var e := ring.Get(ring.len - 1);
      ghost var es := ring.items;
      assert e == es[|es| - 1];
      WellFormedPrefix(es, nextSeq, hashOf);
      bufsize := bufsize - (ENTRY_OVERHEAD + |e.field.name| + |e.field.value|);
      ring.PopBack();
      assert FieldsOf(es[..|es| - 1]) == FieldsOf(es)[..|es| - 1];
      if hasMap {
        LastIsUnique(es, nextSeq, hashOf);
        ChainOfPrefix(es, Bucket(e.hash));
        ghost var before := buckets;
        ghost var c := buckets[Bucket(e.hash)];
        UnlinkedAt(c, e, |c| - 1);
        assert c[..|c| - 1] + c[|c|..] == c[..|c| - 1];
        MapRemove(e);
        forall h | 0 <= h < MAP_SIZE ensures buckets[h] == Chain(ring.items, h) {
          ChainOfPrefix(es, h);
          assert before[h] == Chain(es, h);
        }
      }
    }

    /** hd_context_shrink_table_size. */
    method Shrink()
      requires Valid()
      modifies this`bufsize, this`buckets, ring
      ensures Valid() && ring.buffer == old(ring.buffer)
      ensures Table() == EvictTo(old(Table()), max) && LongestFitting(old(Table()), Table(), max)
    {
      hide TokenOf, SeqAt, Slot, Divides, WellFormed, Chain, LongestFitting;
      EvictLongest(Table(), max);
      while bufsize > max && ring.len > 0
        invariant Valid() && ring.buffer == old(ring.buffer)
        invariant EvictTo(Table(), max) == EvictTo(old(Table()), max)
        decreases ring.len
      {
        EvictOldest();
      }
    }

    /** The loop of add_hd_table_incremental. */
    method MakeRoom(room: nat)
      requires Valid()
      modifies this`bufsize, this`buckets, ring
      ensures Valid() && ring.buffer == old(ring.buffer)
      ensures Table() == EvictTo(old(Table()), max - room)
    {
      hide TokenOf, SeqAt, Slot, Divides, WellFormed, Chain;
      while bufsize + room > max && ring.len > 0
        invariant Valid() && ring.buffer == old(ring.buffer)
        invariant EvictTo(Table(), max - room) == EvictTo(old(Table()), max - room)
        decreases ring.len
      {
        EvictOldest();
      }
    }

    /** add_hd_table_incremental. */
    method AddIncremental(f: Field)
      requires Valid()
      modifies this`bufsize, this`buckets, this`nextSeq, ring, ring.buffer
      ensures Valid() && (ring.buffer == old(ring.buffer) || fresh(ring.buffer))
      ensures Table() == Insert(old(Table()), f, max)
      ensures if Room(f) > max then Table() == []
              else Table() != [] && Table()[0] == f && LongestFitting(old(Table()), Table()[1..], max - Room(f))
    {
      hide TokenOf, SeqAt, Slot, Divides, WellFormed, Chain, LongestFitting;
      InsertKeeps(Table(), f, max);
      var room := ENTRY_OVERHEAD + |f.name| + |f.value|;
      MakeRoom(room);
      if room > max {
        return;
      }
      PushEntry(f);
    }

    /** The insertion half of add_hd_table_incremental. */
    method PushEntry(f: Field)
      requires Valid() && bufsize + Room(f) <= max
      modifies this`bufsize, this`buckets, this`nextSeq, ring, ring.buffer
      ensures Valid() && (ring.buffer == old(ring.buffer) || fresh(ring.buffer))
      ensures Table() == [f] + old(Table())
    {
      hide TokenOf, Chain, WellFormed, Size, Slot, Divides;
      RoomForMore();
      ghost var es, next := ring.items, nextSeq;
      var e := Entry(f, TokenOf(f.name), nextSeq, hashOf(f.name));
      ring.PushFront(e);
      nextSeq := (nextSeq + 1) % SEQ_WRAP;
      NumberingAfterPush(es, next, hashOf, e);
      if hasMap {
        var h := Bucket(e.hash);
        buckets := buckets[h := [e] + buckets[h]];
        ChainsAfterPush(es, e);
      }
      bufsize := bufsize + ENTRY_OVERHEAD + |f.name| + |f.value|;
      assert Table() == [f] + FieldsOf(es);
      SizeOfCons(f, FieldsOf(es));
    }

    lemma RoomForMore()
      requires Valid()
      ensures |ring.items| + 1 < SEQ_WRAP && ring.len == |ring.items| && nextSeq < SEQ_WRAP
    {
      hide TokenOf, Chain;
      CountBySize(Table());
    }

    /** search_hd_table. */
    method SearchTable(f: Field, nameOnly: bool) returns (index: int, exact: bool)
      requires Valid() && hasMap
      ensures D.Found(index, exact) == D.Search(Table(), f, nameOnly)
    {
      hide StaticField, TokenName, Chain, Slot, Divides, Size, WellFormed, FirstNamed, FirstEqual,
        D.SearchStaticFrom, D.SearchDynamic;
      var token := TokenOf(f.name);
      var ent: Option<Entry>;
      ent, exact := MapFind(f, nameOnly);
      FoundPosition(ring.items, nextSeq, hashOf, f, nameOnly);
      if !exact && 0 <= token < STATIC_TABLE_LENGTH {
        index, exact := SearchStatic(f, token, nameOnly);
        return;
      }
      if ent.None? {
        return -1, false;
      }
      index := (nextSeq + 2 * SEQ_WRAP - 1 - ent.value.number) % SEQ_WRAP + STATIC_TABLE_LENGTH;
    }
  }

  /** What hd_map_find returns, read as a position of the dynamic table. */
  lemma FoundPosition(es: seq<Entry>, next: nat, hashOf: Bytes -> nat, f: Field, nameOnly: bool)
    requires WellFormed(es, next, hashOf)
    ensures var d := D.SearchDynamic(FieldsOf(es), f, nameOnly);
            var exact := !nameOnly && FirstEqual(es, f).Some?;
            var ent := if exact then FirstEqual(es, f) else FirstNamed(es, f.name);
            && d.exact == exact
            && (d.index == -1 <==> ent.None?)
            && (ent.Some? ==> (next + 2 * SEQ_WRAP - 1 - ent.value.number) % SEQ_WRAP == d.index)
  {
    hide TokenOf, SeqAt;
    assert es[0..] == es;
    FirstNamedAt(es, f.name, 0);
    FirstEqualAt(es, f, 0);
    var d := D.SearchDynamic(FieldsOf(es), f, nameOnly);
    if d.index != -1 {
      PositionFromSeq(next, d.index);
    }
  }

  /** search_static_table. */
  method SearchStatic(f: Field, token: nat, nameOnly: bool) returns (index: int, exact: bool)
    requires token < STATIC_TABLE_LENGTH
    ensures D.Found(index, exact) == if nameOnly then D.Found(token, false) else D.SearchStaticFrom(f, token, token)
  {
    hide StaticField;
    if nameOnly {
      return token, false;
    }
    var i := token;
    while i < STATIC_TABLE_LENGTH && StaticToken(i) == token
      invariant token <= i <= STATIC_TABLE_LENGTH
      invariant D.SearchStaticFrom(f, token, token) == D.SearchStaticFrom(f, token, i)
    {
      if StaticField(i).value == f.value {
        return i, true;
      }
      i := i + 1;
    }
    return token, false;
  }

  lemma WellFormedPrefix(es: seq<Entry>, next: nat, hashOf: Bytes -> nat)
    requires WellFormed(es, next, hashOf) && es != []
    ensures WellFormed(es[..|es| - 1], next, hashOf)
  {
    hide TokenOf, SeqAt;
  }

  lemma LastIsUnique(es: seq<Entry>, next: nat, hashOf: Bytes -> nat)
    requires WellFormed(es, next, hashOf) && es != []
    ensures var e := es[|es| - 1]; e !in Chain(es[..|es| - 1], Bucket(e.hash))
  {
    hide TokenOf, SeqAt, Chain;
    var e, front := es[|es| - 1], es[..|es| - 1];
    if e in Chain(front, Bucket(e.hash)) {
      ChainMember(front, Bucket(e.hash), e);
      var i :| 0 <= i < |front| && front[i] == e;
      assert es[i] == e;
      PositionFromSeq(next, i);
      PositionFromSeq(next, |es| - 1);
    }
  }

  lemma NumberingAfterPush(es: seq<Entry>, next: nat, hashOf: Bytes -> nat, e: Entry)
    requires WellFormed(es, next, hashOf) && |es| + 1 < SEQ_WRAP
    requires e == Entry(e.field, TokenOf(e.field.name), next, hashOf(e.field.name))
    ensures WellFormed([e] + es, (next + 1) % SEQ_WRAP, hashOf)
  {
    var all := [e] + es;
    forall i | 0 <= i < |all| ensures all[i].number == SeqAt((next + 1) % SEQ_WRAP, i) {
      SeqAfterInsert(next, if i == 0 then 0 else i - 1);
    }
  }

  lemma ChainsAfterPush(es: seq<Entry>, e: Entry)
    ensures forall h :: Chain([e] + es, h) == if h == Bucket(e.hash) then [e] + Chain(es, h) else Chain(es, h)
  {
    forall h
      ensures Chain([e] + es, h) == if h == Bucket(e.hash) then [e] + Chain(es, h) else Chain(es, h)
    {
      assert ([e] + es)[1..] == es;
    }
  }
}
