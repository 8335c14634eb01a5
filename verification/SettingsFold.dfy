/**
 * A received SETTINGS frame (lib/nghttp2_session.c).  While it is read, repeated entries are folded into one,
 * with the smallest header table size kept aside; the folded list is then applied entry by entry.  Folding
 * keeps the meaning of the frame.
 */
module SettingsFold {
  import opened Bytes
  import opened DynamicTable
  import D = Deflate
  import FlowControl

  type Id = int

  const HEADER_TABLE_SIZE: Id := 1
  const ENABLE_PUSH: Id := 2
  const MAX_CONCURRENT_STREAMS: Id := 3
  const INITIAL_WINDOW_SIZE: Id := 4
  const MAX_FRAME_SIZE: Id := 5
  const MAX_HEADER_LIST_SIZE: Id := 6
  const ENABLE_CONNECT_PROTOCOL: Id := 8

  datatype Entry = Entry(id: Id, value: nat)

  predicate Known(id: Id) { 1 <= id <= 6 || id == ENABLE_CONNECT_PROTOCOL }

  // ---- applying entries ------------------------------------------------------------

  /**
   * What one identifier controls: its stored value, and for two of them the deflater or the send windows of
   * the streams.
   */
  datatype Part =
    | Plain(value: nat)
    | Sizes(value: nat, deflater: D.Deflater)
    | Windows(value: nat, streams: map<nat, int>)

  predicate InRange(w: int) { FlowControl.INT32_MIN <= w <= FlowControl.MAX_WINDOW }

  /** The body of the loop of nghttp2_session_on_settings_received; None is an error. */
  function ApplyPart(server: bool, id: Id, p: Part, v: nat): Option<Part>
  {
    match p
    case Sizes(_, d) => Some(Sizes(v, D.ChangeSize(d, v)))
    case Windows(w, streams) =>
      if v > FlowControl.MAX_WINDOW || exists s :: s in streams && !InRange(streams[s] + v - w) then None
      else Some(Windows(v, map s | s in streams :: streams[s] + v - w))
    case Plain(c) =>
      if id == ENABLE_PUSH && (v > 1 || (!server && v != 0)) then None
      else if id == MAX_FRAME_SIZE && (v < 0x4000 || v > 0xFF_FFFF) then None
      else if id == ENABLE_CONNECT_PROTOCOL && (v > 1 || (!server && c != 0 && v == 0)) then None
      else Some(Plain(v))
  }

  type Remote = map<Id, Part>

  /** An unknown identifier changes nothing. */
  function Apply(server: bool, st: Remote, e: Entry): Option<Remote>
  {
    if e.id !in st then Some(st)
    else
      match ApplyPart(server, e.id, st[e.id], e.value)
      case None => None
      case Some(p) => Some(st[e.id := p])
  }

  function Replay(server: bool, st: Remote, l: seq<Entry>): Option<Remote>
    decreases |l|
  {
    if l == [] then Some(st)
    else
      match Apply(server, st, l[0])
      case None => None
      case Some(next) => Replay(server, next, l[1..])
  }

  // ---- one identifier at a time ------------------------------------------------------

  function Values(l: seq<Entry>, id: Id): seq<nat>
  {
    if l == [] then [] else (if l[0].id == id then [l[0].value] else []) + Values(l[1..], id)
  }

  function ReplayPart(server: bool, id: Id, p: Part, vs: seq<nat>): Option<Part>
    decreases |vs|
  {
    if vs == [] then Some(p)
    else
      match ApplyPart(server, id, p, vs[0])
      case None => None
      case Some(q) => ReplayPart(server, id, q, vs[1..])
  }

  ghost predicate AllParts(server: bool, st: Remote, l: seq<Entry>)
  {
    forall id :: id in st ==> ReplayPart(server, id, st[id], Values(l, id)).Some?
  }

  /** Applying a list is applying, for each identifier, its values in order. */
  lemma {:induction false} ReplayByParts(server: bool, st: Remote, l: seq<Entry>)
    ensures Replay(server, st, l).Some? <==> AllParts(server, st, l)
    ensures Replay(server, st, l).Some? ==>
              && Replay(server, st, l).value.Keys == st.Keys
              && forall id :: id in st ==>
                   Some(Replay(server, st, l).value[id]) == ReplayPart(server, id, st[id], Values(l, id))
    decreases |l|
  {
    if l != [] {
      var e := l[0];
      if e.id !in st {
        forall id | id in st ensures Values(l, id) == Values(l[1..], id) { }
        ReplayByParts(server, st, l[1..]);
        assert AllParts(server, st, l) <==> AllParts(server, st, l[1..]);
      } else {
        ReplayKnown(server, st, l);
      }
    }
  }

  lemma {:induction false} ReplayKnown(server: bool, st: Remote, l: seq<Entry>)
    requires l != [] && l[0].id in st
    ensures Replay(server, st, l).Some? <==> AllParts(server, st, l)
    ensures Replay(server, st, l).Some? ==>
              && Replay(server, st, l).value.Keys == st.Keys
              && forall id :: id in st ==>
                   Some(Replay(server, st, l).value[id]) == ReplayPart(server, id, st[id], Values(l, id))
    decreases |l|, 0
  {
    var e := l[0];
    var rest := l[1..];
    var q := ApplyPart(server, e.id, st[e.id], e.value);
    assert Values(l, e.id) == [e.value] + Values(rest, e.id);
    assert Values(l, e.id)[1..] == Values(rest, e.id);
    if q.None? {
      assert ReplayPart(server, e.id, st[e.id], Values(l, e.id)).None?;
    } else {
      var next := st[e.id := q.value];
      ReplayByParts(server, next, rest);
      forall id | id in st
        ensures ReplayPart(server, id, st[id], Values(l, id)) == ReplayPart(server, id, next[id], Values(rest, id))
      {
        if id != e.id { assert Values(l, id) == Values(rest, id); }
      }
      assert AllParts(server, st, l) <==> AllParts(server, next, rest);
    }
  }

  // ---- folding -------------------------------------------------------------------------

  /** The list so far and the smallest header table size seen. */
  datatype Folded = Folded(list: seq<Entry>, min: nat)

  const NOTHING := Folded([], UINT32_MAX)

  /** The first position of an entry with identifier `id`, or the length of the list. */
  function FirstOf(l: seq<Entry>, id: Id): (i: nat)
    ensures i <= |l| && (i < |l| ==> l[i].id == id)
    ensures forall j :: 0 <= j < i ==> l[j].id != id
  {
    if l == [] || l[0].id == id then 0 else 1 + FirstOf(l[1..], id)
  }

  function Put(l: seq<Entry>, e: Entry): seq<Entry>
  {
    var i := FirstOf(l, e.id);
    if i < |l| then l[i := e] else l + [e]
  }

  /** inbound_frame_set_settings_entry. */
  function FoldOne(f: Folded, e: Entry): Folded
  {
    if !Known(e.id) then f.(list := f.list + [e])
    else Folded(Put(f.list, e), if e.id == HEADER_TABLE_SIZE && e.value < f.min then e.value else f.min)
  }

  function Fold(l: seq<Entry>): Folded
  {
    if l == [] then NOTHING else FoldOne(Fold(l[..|l| - 1]), l[|l| - 1])
  }

  /** The start of session_process_settings_frame. */
  function Finished(f: Folded): seq<Entry>
  {
    var i := FirstOf(f.list, HEADER_TABLE_SIZE);
    if f.min < UINT32_MAX && i < |f.list| && f.min != f.list[i].value
    then f.list[i := Entry(HEADER_TABLE_SIZE, f.min)] + [f.list[i]] else f.list
  }

  // ---- what the folded list holds ---------------------------------------------------------

  function Smallest(vs: seq<nat>): nat
    requires vs != []
  {
    if |vs| == 1 then vs[0] else var m := Smallest(vs[..|vs| - 1]); if vs[|vs| - 1] < m then vs[|vs| - 1] else m
  }

  function Last(vs: seq<nat>): nat
    requires vs != []
  {
    vs[|vs| - 1]
  }

  /** The values that are left: the last one, after the smallest header table size if that differs. */
  function Reduced(id: Id, vs: seq<nat>): seq<nat>
  {
    if vs == [] then []
    else if id == HEADER_TABLE_SIZE && Smallest(vs) != Last(vs) then [Smallest(vs), Last(vs)]
    else [Last(vs)]
  }

  lemma {:induction false} ValuesAppend(a: seq<Entry>, b: seq<Entry>, id: Id)
    ensures Values(a + b, id) == Values(a, id) + Values(b, id)
  {
    if a == [] {
      assert a + b == b;
    } else {
      assert (a + b)[1..] == a[1..] + b;
      ValuesAppend(a[1..], b, id);
    }
  }

  lemma {:induction false} ValuesNone(l: seq<Entry>, id: Id)
    requires forall j :: 0 <= j < |l| ==> l[j].id != id
    ensures Values(l, id) == []
  {
    if l != [] { ValuesNone(l[1..], id); }
  }

  lemma ValuesSplit(l: seq<Entry>, i: nat, id: Id)
    requires i < |l|
    ensures Values(l, id) == Values(l[..i], id) + (if l[i].id == id then [l[i].value] else []) + Values(l[i + 1..], id)
  {
    assert l == l[..i] + ([l[i]] + l[i + 1..]);
    ValuesAppend(l[..i], [l[i]] + l[i + 1..], id);
    assert ([l[i]] + l[i + 1..])[1..] == l[i + 1..];
  }

  lemma ValuesSet(l: seq<Entry>, i: nat, e: Entry, id: Id)
    requires i < |l| && l[i].id == e.id
    ensures id != e.id ==> Values(l[i := e], id) == Values(l, id)
    ensures Values(l[..i], e.id) == [] && Values(l[i + 1..], e.id) == [] ==> Values(l[i := e], e.id) == [e.value]
  {
    ValuesSplit(l, i, id);
    ValuesSplit(l[i := e], i, id);
    ValuesSplit(l[i := e], i, e.id);
    assert l[i := e][..i] == l[..i] && l[i := e][i + 1..] == l[i + 1..];
  }

  /** Each known identifier occurs at most once in the folded list, with its last value. */
  predicate Holds(f: Folded, l: seq<Entry>, id: Id)
  {
    && (Known(id) ==> Values(f.list, id) == if Values(l, id) == [] then [] else [Last(Values(l, id))])
    && (!Known(id) ==> Values(f.list, id) == Values(l, id))
  }

  lemma FirstValue(l: seq<Entry>, id: Id)
    requires |Values(l, id)| == 1
    ensures var i := FirstOf(l, id);
            i < |l| && Values(l, id) == [l[i].value] && Values(l[..i], id) == [] && Values(l[i + 1..], id) == []
  {
    var i := FirstOf(l, id);
    if i == |l| { ValuesNone(l, id); }
    ValuesNone(l[..i], id);
    ValuesSplit(l, i, id);
  }

  lemma FirstNone(l: seq<Entry>, id: Id)
    requires Values(l, id) == []
    ensures FirstOf(l, id) == |l|
  {
    var i := FirstOf(l, id);
    if i < |l| { ValuesSplit(l, i, id); }
  }

  lemma PutHolds(f: Folded, l: seq<Entry>, e: Entry, id: Id)
    requires Known(e.id) && Holds(f, l, id) && Holds(f, l, e.id)
    ensures Holds(Folded(Put(f.list, e), f.min), l + [e], id)
  {
    hide Values, FirstOf;
    ValuesAppend(l, [e], id);
    ValuesAppend(l, [e], e.id);
    ValuesOne(e, id);
    ValuesOne(e, e.id);
    if Values(l, e.id) == [] {
      FirstNone(f.list, e.id);
      ValuesAppend(f.list, [e], id);
    } else {
      FirstValue(f.list, e.id);
      ValuesSet(f.list, FirstOf(f.list, e.id), e, id);
    }
  }

  lemma {:induction false} FoldHolds(l: seq<Entry>, id: Id)
    ensures Holds(Fold(l), l, id)
  {
    if l != [] {
      var prefix, e := l[..|l| - 1], l[|l| - 1];
      assert l == prefix + [e];
      FoldHolds(prefix, id);
      if Known(e.id) {
        FoldHolds(prefix, e.id);
        PutHolds(Fold(prefix), prefix, e, id);
      } else {
        ValuesAppend(prefix, [e], id);
        ValuesAppend(Fold(prefix).list, [e], id);
      }
    }
  }

  lemma {:induction false} FoldMin(l: seq<Entry>)
    requires forall i :: 0 <= i < |l| ==> l[i].value <= UINT32_MAX
    ensures var vs := Values(l, HEADER_TABLE_SIZE);
            Fold(l).min == if vs == [] then UINT32_MAX else Smallest(vs)
  {
    if l != [] {
      var prefix, e := l[..|l| - 1], l[|l| - 1];
      assert l == prefix + [e];
      FoldMin(prefix);
      ValuesAppend(prefix, [e], HEADER_TABLE_SIZE);
      var vs, ws := Values(prefix, HEADER_TABLE_SIZE), Values(l, HEADER_TABLE_SIZE);
      assert Values([e], HEADER_TABLE_SIZE) == if e.id == HEADER_TABLE_SIZE then [e.value] else [];
      if e.id == HEADER_TABLE_SIZE {
        assert ws == vs + [e.value] && ws[..|vs|] == vs;
        assert Fold(l).min == if e.value < Fold(prefix).min then e.value else Fold(prefix).min;
      } else {
        assert ws == vs;
      }
    }
  }

  lemma FinishedOther(f: Folded, id: Id)
    requires id != HEADER_TABLE_SIZE
    ensures Values(Finished(f), id) == Values(f.list, id)
  {
    hide FirstOf, Values;
    var i := FirstOf(f.list, HEADER_TABLE_SIZE);
    if i < |f.list| {
      var e := Entry(HEADER_TABLE_SIZE, f.min);
      ValuesSet(f.list, i, e, id);
      ValuesAppend(f.list[i := e], [f.list[i]], id);
      ValuesOne(f.list[i], id);
    }
  }

  lemma ValuesOne(e: Entry, id: Id)
    ensures Values([e], id) == if e.id == id then [e.value] else []
  {
  }

  lemma FinishedSizes(f: Folded, vs: seq<nat>)
    requires vs != [] && Values(f.list, HEADER_TABLE_SIZE) == [Last(vs)] && f.min == Smallest(vs)
    requires Last(vs) <= UINT32_MAX
    ensures Values(Finished(f), HEADER_TABLE_SIZE) == Reduced(HEADER_TABLE_SIZE, vs)
  {
    hide FirstOf, Values, Smallest;
    FirstValue(f.list, HEADER_TABLE_SIZE);
    SmallestBound(vs);
    var i := FirstOf(f.list, HEADER_TABLE_SIZE);
    var e := Entry(HEADER_TABLE_SIZE, f.min);
    ValuesSet(f.list, i, e, HEADER_TABLE_SIZE);
    ValuesAppend(f.list[i := e], [f.list[i]], HEADER_TABLE_SIZE);
    ValuesOne(f.list[i], HEADER_TABLE_SIZE);
  }

  lemma {:induction false} ValuesBound(l: seq<Entry>, id: Id)
    requires forall i :: 0 <= i < |l| ==> l[i].value <= UINT32_MAX
    ensures forall i :: 0 <= i < |Values(l, id)| ==> Values(l, id)[i] <= UINT32_MAX
  {
    if l != [] { ValuesBound(l[1..], id); }
  }

  lemma FinishedReduced(l: seq<Entry>, id: Id)
    requires Known(id) && forall i :: 0 <= i < |l| ==> l[i].value <= UINT32_MAX
    ensures Values(Finished(Fold(l)), id) == Reduced(id, Values(l, id))
  {
    hide Fold, Finished, Values, Smallest;
    FoldHolds(l, id);
    if id != HEADER_TABLE_SIZE {
      FinishedOther(Fold(l), id);
    } else {
      FoldMin(l);
      ValuesBound(l, id);
      var vs := Values(l, id);
      if vs == [] { FinishedNone(Fold(l)); } else { FinishedSizes(Fold(l), vs); }
    }
  }

  lemma FinishedNone(f: Folded)
    requires Values(f.list, HEADER_TABLE_SIZE) == []
    ensures Finished(f) == f.list
  {
    FirstNone(f.list, HEADER_TABLE_SIZE);
  }

  lemma {:induction false} SmallestBound(vs: seq<nat>)
    requires vs != []
    ensures Smallest(vs) <= Last(vs)
    ensures forall i :: 0 <= i < |vs| ==> Smallest(vs) <= vs[i]
  {
    if |vs| > 1 { SmallestBound(vs[..|vs| - 1]); }
  }

  // ---- the two lists mean the same ---------------------------------------------------------

  /** The deflater after a sequence of sizes depends on the smallest and the last only. */
  function Resized(d: D.Deflater, smallest: nat, last: nat): D.Deflater
  {
    D.Deflater(EvictTo(d.table, Min(smallest, d.cap)), Min(last, d.cap), d.cap,
               Min(d.min, Min(smallest, d.cap)), true)
  }

  lemma {:induction false} SizesReplayed(server: bool, id: Id, p: Part, vs: seq<nat>)
    requires p.Sizes? && vs != []
    ensures ReplayPart(server, id, p, vs) == Some(Sizes(Last(vs), Resized(p.deflater, SmallestFront(vs), Last(vs))))
    decreases |vs|
  {
    if |vs| == 1 {
      assert vs[1..] == [];
    } else {
      var q := Sizes(vs[0], D.ChangeSize(p.deflater, vs[0]));
      SizesReplayed(server, id, q, vs[1..]);
      EvictTwice(p.deflater.table, Min(vs[0], p.deflater.cap), Min(SmallestFront(vs[1..]), p.deflater.cap));
    }
  }

  function SmallestFront(vs: seq<nat>): nat
    requires vs != []
  {
    if |vs| == 1 then vs[0] else Min(vs[0], SmallestFront(vs[1..]))
  }

  lemma {:induction false} SmallestIsMember(vs: seq<nat>)
    requires vs != []
    ensures Smallest(vs) in vs && SmallestFront(vs) in vs
    ensures forall i :: 0 <= i < |vs| ==> SmallestFront(vs) <= vs[i]
  {
    if |vs| > 1 {
      SmallestIsMember(vs[1..]);
      SmallestIsMember(vs[..|vs| - 1]);
    }
  }

  lemma SmallestAgree(vs: seq<nat>)
    requires vs != []
    ensures Smallest(vs) == SmallestFront(vs)
  {
    SmallestIsMember(vs);
    SmallestBound(vs);
    var i :| 0 <= i < |vs| && vs[i] == Smallest(vs);
    var j :| 0 <= j < |vs| && vs[j] == SmallestFront(vs);
  }

  lemma SizesKept(server: bool, p: Part, vs: seq<nat>)
    requires p.Sizes? && vs != []
    ensures ReplayPart(server, HEADER_TABLE_SIZE, p, Reduced(HEADER_TABLE_SIZE, vs))
            == ReplayPart(server, HEADER_TABLE_SIZE, p, vs)
  {
    var us := Reduced(HEADER_TABLE_SIZE, vs);
    SizesReplayed(server, HEADER_TABLE_SIZE, p, vs);
    SizesReplayed(server, HEADER_TABLE_SIZE, p, us);
    SmallestAgree(vs);
    SmallestBound(vs);
    if |us| == 2 { assert us[1..] == [us[1]]; }
  }

  function Shifted(streams: map<nat, int>, k: int): map<nat, int> { map s | s in streams :: streams[s] + k }

  /** The window changes of a sequence of initial sizes add up. */
  lemma {:induction false} WindowsReplayed(server: bool, id: Id, p: Part, vs: seq<nat>)
    requires p.Windows? && vs != [] && ReplayPart(server, id, p, vs).Some?
    ensures ReplayPart(server, id, p, vs) == Some(Windows(Last(vs), Shifted(p.streams, Last(vs) - p.value)))
    ensures Last(vs) <= FlowControl.MAX_WINDOW
    ensures forall s :: s in p.streams ==> InRange(p.streams[s] + Last(vs) - p.value)
    decreases |vs|
  {
    var q := ApplyPart(server, id, p, vs[0]).value;
    if |vs| == 1 {
      assert vs[1..] == [];
      assert q == Windows(vs[0], Shifted(p.streams, vs[0] - p.value));
    } else {
      WindowsReplayed(server, id, q, vs[1..]);
      assert Shifted(q.streams, Last(vs) - vs[0]) == Shifted(p.streams, Last(vs) - p.value);
      forall s | s in p.streams ensures InRange(p.streams[s] + Last(vs) - p.value) { assert s in q.streams; }
    }
  }

  lemma WindowsKept(server: bool, id: Id, p: Part, vs: seq<nat>)
    requires p.Windows? && vs != [] && ReplayPart(server, id, p, vs).Some?
    ensures ReplayPart(server, id, p, [Last(vs)]) == ReplayPart(server, id, p, vs)
  {
    WindowsReplayed(server, id, p, vs);
    var us := [Last(vs)];
    assert us[1..] == [];
    assert Shifted(p.streams, Last(vs) - p.value) == map s | s in p.streams :: p.streams[s] + Last(vs) - p.value;
  }

  lemma {:induction false} PlainKept(server: bool, id: Id, p: Part, vs: seq<nat>)
    requires p.Plain? && vs != [] && ReplayPart(server, id, p, vs).Some?
    ensures ReplayPart(server, id, p, vs) == Some(Plain(Last(vs)))
    ensures ReplayPart(server, id, p, [Last(vs)]) == Some(Plain(Last(vs)))
    decreases |vs|
  {
    assert [Last(vs)][1..] == [];
    if |vs| == 1 {
      assert vs == [Last(vs)];
    } else {
      PlainKept(server, id, Plain(vs[0]), vs[1..]);
    }
  }

  /** The settings this endpoint stores, with the deflater and the windows where they belong. */
  predicate WellFormed(st: Remote)
  {
    && (forall id :: id in st ==> Known(id))
    && (forall id :: id in st ==> (st[id].Sizes? <==> id == HEADER_TABLE_SIZE))
  }

  /**
   * Whenever applying every entry of the frame in order raises no error, applying the folded list gives the same
   * stored settings, the same deflater and the same windows.
   */
  lemma FoldKeepsMeaning(server: bool, st: Remote, l: seq<Entry>)
    requires WellFormed(st) && forall i :: 0 <= i < |l| ==> l[i].value <= UINT32_MAX
    requires Replay(server, st, l).Some?
    ensures Replay(server, st, Finished(Fold(l))) == Replay(server, st, l)
  {
    var folded := Finished(Fold(l));
    ReplayByParts(server, st, l);
    ReplayByParts(server, st, folded);
    forall id | id in st
      ensures ReplayPart(server, id, st[id], Values(folded, id)) == ReplayPart(server, id, st[id], Values(l, id))
    {
      hide Replay, Finished, Fold;
      FinishedReduced(l, id);
      PartKept(server, id, st[id], Values(l, id));
    }
    hide Finished, Fold, ReplayPart;
    var a, b := Replay(server, st, folded), Replay(server, st, l);
    assert a.Some?;
    assert forall id :: id in st ==> a.value[id] == b.value[id];
    assert a.value == b.value;
  }

  // ---- when folding hides an error -----------------------------------------------------------

  /**
   * The values the loop accepts for an identifier with part `p`, after the values `before` of the same frame.  Window
   * changes add up, so those before do not matter for the streams; a client does not let the extended CONNECT method
   * be switched off again.
   */
  predicate Acceptable(server: bool, id: Id, p: Part, before: seq<nat>, v: nat)
  {
    match p
    case Sizes(_, _) => true
    case Windows(w, streams) =>
      v <= 0x7FFF_FFFF && forall s :: s in streams ==> -0x8000_0000 <= streams[s] + v - w <= 0x7FFF_FFFF
    case Plain(c) =>
      && (id == ENABLE_PUSH ==> v == 0 || (v == 1 && server))
      && (id == MAX_FRAME_SIZE ==> 0x4000 <= v <= 0xFF_FFFF)
      && (id == ENABLE_CONNECT_PROTOCOL ==>
            v == 1 || (v == 0 && (server || (c == 0 && forall u :: u in before ==> u == 0))))
  }

  predicate AllAcceptable(server: bool, id: Id, p: Part, vs: seq<nat>)
  {
    forall i :: 0 <= i < |vs| ==> Acceptable(server, id, p, vs[..i], vs[i])
  }

  lemma AcceptableNext(server: bool, id: Id, p: Part, q: Part, vs: seq<nat>, i: nat)
    requires vs != [] && ApplyPart(server, id, p, vs[0]) == Some(q) && i < |vs| - 1
    ensures Acceptable(server, id, p, vs[..i + 1], vs[i + 1]) <==> Acceptable(server, id, q, vs[1..][..i], vs[1..][i])
  {
    var a, b := vs[..i + 1], vs[1..][..i];
    assert a == [vs[0]] + b;
    assert forall u :: u in a <==> u == vs[0] || u in b;
    assert vs[0] in a;
    if p.Windows? {
      assert forall s :: s in p.streams ==> q.streams[s] + vs[i + 1] - q.value == p.streams[s] + vs[i + 1] - p.value;
    }
  }

  lemma {:induction false} ReplayPartIff(server: bool, id: Id, p: Part, vs: seq<nat>)
    ensures ReplayPart(server, id, p, vs).Some? <==> AllAcceptable(server, id, p, vs)
    decreases |vs|
  {
    if vs != [] {
      assert vs[..0] == [];
      assert ApplyPart(server, id, p, vs[0]).Some? <==> Acceptable(server, id, p, vs[..0], vs[0]);
      if ApplyPart(server, id, p, vs[0]).Some? {
        var q := ApplyPart(server, id, p, vs[0]).value;
        ReplayPartIff(server, id, q, vs[1..]);
        forall i | 0 <= i < |vs| - 1
          ensures Acceptable(server, id, p, vs[..i + 1], vs[i + 1]) <==>
                  Acceptable(server, id, q, vs[1..][..i], vs[1..][i])
        {
          AcceptableNext(server, id, p, q, vs, i);
        }
        NextAcceptable(server, id, p, q, vs);
      }
    }
  }

  lemma NextAcceptable(server: bool, id: Id, p: Part, q: Part, vs: seq<nat>)
    requires vs != [] && Acceptable(server, id, p, vs[..0], vs[0])
    requires forall i :: 0 <= i < |vs| - 1 ==>
               (Acceptable(server, id, p, vs[..i + 1], vs[i + 1])
               <==> Acceptable(server, id, q, vs[1..][..i], vs[1..][i]))
    ensures AllAcceptable(server, id, p, vs) <==> AllAcceptable(server, id, q, vs[1..])
  {
    hide Acceptable;
    if AllAcceptable(server, id, q, vs[1..]) {
      forall i | 0 <= i < |vs| ensures Acceptable(server, id, p, vs[..i], vs[i]) {
        if i > 0 { assert Acceptable(server, id, q, vs[1..][..i - 1], vs[1..][i - 1]); }
      }
    }
    if AllAcceptable(server, id, p, vs) {
      forall i | 0 <= i < |vs| - 1 ensures Acceptable(server, id, q, vs[1..][..i], vs[1..][i]) {
        assert Acceptable(server, id, p, vs[..i + 1], vs[i + 1]);
      }
    }
  }

  /** The folded list raises no error exactly if the last value of every identifier is acceptable by itself. */
  lemma FoldedAccepted(server: bool, st: Remote, l: seq<Entry>)
    requires WellFormed(st) && forall i :: 0 <= i < |l| ==> l[i].value <= UINT32_MAX
    ensures Replay(server, st, Finished(Fold(l))).Some? <==> LastAcceptable(server, st, l)
  {
    hide Replay, Finished, Fold, Values;
    var folded := Finished(Fold(l));
    ReplayByParts(server, st, folded);
    forall id | id in st
      ensures ReplayPart(server, id, st[id], Values(folded, id)).Some? <==>
              (Values(l, id) != [] ==> Acceptable(server, id, st[id], [], Last(Values(l, id))))
    {
      FinishedReduced(l, id);
      var us := Values(folded, id);
      ReplayPartIff(server, id, st[id], us);
      if Values(l, id) != [] && !st[id].Sizes? { assert us[..0] == [] && us[0] == Last(Values(l, id)); }
    }
  }

  ghost predicate LastAcceptable(server: bool, st: Remote, l: seq<Entry>)
  {
    forall id :: id in st && Values(l, id) != [] ==> Acceptable(server, id, st[id], [], Last(Values(l, id)))
  }

  /** Every last value is acceptable by itself, but some value is not acceptable after those before it. */
  ghost predicate HidesError(server: bool, st: Remote, l: seq<Entry>)
  {
    LastAcceptable(server, st, l) && exists id :: id in st && !AllAcceptable(server, id, st[id], Values(l, id))
  }

  /** Applying the folded list does the same as applying every entry in order, errors included, unless it hides one. */
  lemma FoldSameIff(server: bool, st: Remote, l: seq<Entry>)
    requires WellFormed(st) && forall i :: 0 <= i < |l| ==> l[i].value <= UINT32_MAX
    ensures Replay(server, st, Finished(Fold(l))) == Replay(server, st, l) <==> !HidesError(server, st, l)
  {
    hide Replay, Finished, Fold, Values, ReplayPart;
    FoldedAccepted(server, st, l);
    ReplayByParts(server, st, l);
    forall id | id in st
      ensures ReplayPart(server, id, st[id], Values(l, id)).Some? <==> AllAcceptable(server, id, st[id], Values(l, id))
    {
      ReplayPartIff(server, id, st[id], Values(l, id));
    }
    if Replay(server, st, l).Some? { FoldKeepsMeaning(server, st, l); }
  }

  /** For example, a client that is told to enable and then to disable the extended CONNECT method in one frame. */
  lemma FoldHidesError()
    ensures var st := map[ENABLE_CONNECT_PROTOCOL := Plain(0)];
            var l := [Entry(ENABLE_CONNECT_PROTOCOL, 1), Entry(ENABLE_CONNECT_PROTOCOL, 0)];
            && WellFormed(st) && Replay(false, st, l) == None
            && Replay(false, st, Finished(Fold(l))) == Some(map[ENABLE_CONNECT_PROTOCOL := Plain(0)])
  {
    var st := map[ENABLE_CONNECT_PROTOCOL := Plain(0)];
    var a, b := Entry(ENABLE_CONNECT_PROTOCOL, 1), Entry(ENABLE_CONNECT_PROTOCOL, 0);
    var l := [a, b];
    assert l[1..] == [b] && l[..1] == [a] && [a][..0] == [];
    assert Fold([a]) == FoldOne(Fold([]), a) == Folded([a], UINT32_MAX);
    assert Fold(l) == FoldOne(Fold([a]), b) == Folded([b], UINT32_MAX);
    assert Finished(Fold(l)) == [b];
    assert [b][1..] == [];
    assert st[ENABLE_CONNECT_PROTOCOL := Plain(0)] == st;
    assert Apply(false, st, b) == Some(st);
    assert Replay(false, st, [b]) == Replay(false, st, []) == Some(st);
  }

  lemma PartKept(server: bool, id: Id, p: Part, vs: seq<nat>)
    requires ReplayPart(server, id, p, vs).Some? && (p.Sizes? <==> id == HEADER_TABLE_SIZE)
    ensures ReplayPart(server, id, p, Reduced(id, vs)) == ReplayPart(server, id, p, vs)
  {
    if vs != [] {
      match p
      case Sizes(_, _) => SizesKept(server, p, vs);
      case Windows(_, _) => WindowsKept(server, id, p, vs);
      case Plain(_) => PlainKept(server, id, p, vs);
    }
  }

  // ---- the frame being read -------------------------------------------------------------------

  /** The array of nghttp2_inbound_frame: the entries so far, and in its last place the smallest table size. */
  class SettingsFrame {
    var iv: array<Entry>
    var niv: nat

    ghost predicate Valid()
      reads this, iv
    {
      && niv < iv.Length
      && iv[iv.Length - 1].id == HEADER_TABLE_SIZE
      && (View().min < UINT32_MAX ==> FirstOf(View().list, HEADER_TABLE_SIZE) < niv)
    }

    function View(): Folded
      requires niv < iv.Length
      reads this, iv
    {
      Folded(iv[..niv], iv[iv.Length - 1].value)
    }

    /** Room for the entries of the payload and one more. */
    constructor (count: nat)
      ensures Valid() && iv.Length == count + 1 && niv == 0 && View() == NOTHING && fresh(iv)
    {
      iv := new Entry[count + 1](_ => Entry(HEADER_TABLE_SIZE, UINT32_MAX));
      niv := 0;
    }

    method Find(id: Id) returns (i: nat)
      requires niv <= iv.Length
      ensures i == FirstOf(iv[..niv], id)
    {
      i := 0;
      while i < niv
        invariant 0 <= i <= niv && forall j :: 0 <= j < i ==> iv[j].id != id
      {
        if iv[i].id == id { break; }
        i := i + 1;
      }
      FirstIs(iv[..niv], id, i);
    }

    /** inbound_frame_set_settings_entry; the payload has an entry that is not read yet. */
    method SetEntry(e: Entry)
      requires Valid() && niv + 1 < iv.Length
      modifies this, iv
      ensures Valid() && iv == old(iv) && niv <= old(niv) + 1 && View() == FoldOne(old(View()), e)
    {
      hide FirstOf;
      ghost var before := iv[..niv];
      if !Known(e.id) {
        iv[niv] := e;
        niv := niv + 1;
        assert iv[..niv] == before + [e];
        FirstKept(before, e, HEADER_TABLE_SIZE);
        return;
      }
      var i := Find(e.id);
      if i < niv {
        iv[i] := e;
      } else {
        iv[niv] := e;
        niv := niv + 1;
      }
      assert iv[..niv] == Put(before, e);
      FirstPut(before, e, HEADER_TABLE_SIZE);
      if e.id == HEADER_TABLE_SIZE && e.value < iv[iv.Length - 1].value {
        iv[iv.Length - 1] := Entry(HEADER_TABLE_SIZE, e.value);
        assert iv[..niv] == Put(before, e);
      }
    }

    /** The start of session_process_settings_frame: the list handed on. */
    method Finish() returns (list: seq<Entry>)
      requires Valid()
      modifies this, iv
      ensures list == Finished(old(View()))
    {
      var entry := iv[iv.Length - 1];
      ghost var before := iv[..niv];
      if entry.value < UINT32_MAX {
        var i := Find(HEADER_TABLE_SIZE);
        assert i < niv;
        if entry.value != iv[i].value {
          iv[niv] := iv[i];
          niv := niv + 1;
          iv[i] := entry;
          assert iv[..niv] == before[i := entry] + [before[i]];
        }
      }
      list := iv[..niv];
    }
  }

  lemma {:induction false} FirstIs(l: seq<Entry>, id: Id, i: nat)
    requires i <= |l| && (i < |l| ==> l[i].id == id) && forall j :: 0 <= j < i ==> l[j].id != id
    ensures FirstOf(l, id) == i
  {
    var k := FirstOf(l, id);
    assert !(k < i) && !(i < k);
  }

  lemma FirstKept(l: seq<Entry>, e: Entry, id: Id)
    ensures FirstOf(l, id) < |l| ==> FirstOf(l + [e], id) == FirstOf(l, id)
  {
    if FirstOf(l, id) < |l| { FirstIs(l + [e], id, FirstOf(l, id)); }
  }

  lemma FirstPut(l: seq<Entry>, e: Entry, id: Id)
    ensures FirstOf(l, id) < |l| || e.id == id ==> FirstOf(Put(l, e), id) < |Put(l, e)|
  {
    var i := FirstOf(l, e.id);
    if e.id == id {
      FirstIs(Put(l, e), id, i);
    } else if FirstOf(l, id) < |l| {
      FirstIs(Put(l, e), id, FirstOf(l, id));
    }
  }

  /** Reading a whole payload gives the fold of its entries, within the array. */
  method ReadSettings(payload: seq<Entry>) returns (list: seq<Entry>)
    ensures list == Finished(Fold(payload))
  {
    var frame := new SettingsFrame(|payload|);
    var k := 0;
    while k < |payload|
      invariant 0 <= k <= |payload| && frame.Valid() && frame.iv.Length == |payload| + 1 && frame.niv <= k
      invariant frame.View() == Fold(payload[..k]) && fresh(frame) && fresh(frame.iv)
    {
      assert payload[..k + 1][..k] == payload[..k];
      frame.SetEntry(payload[k]);
      k := k + 1;
    }
    assert payload[..k] == payload;
    list := frame.Finish();
  }
}
