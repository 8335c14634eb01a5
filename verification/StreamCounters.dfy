/**
 * The streams of a session and the counters kept beside them (lib/nghttp2_session.c): every counter is the
 * number of streams of its kind, and the lists of closed and idle streams hold exactly those streams.
 */
module StreamCounters {
  import opened Bytes

  type Id = nat

  datatype State = IdleState | ReservedState | LiveState

  datatype Stream = Stream(state: State, push: bool, closed: bool)

  datatype Kind = Outgoing | Incoming | ReservedRemote | ReservedLocal | Idle | Closed

  /** nghttp2_session_is_my_stream_id. */
  predicate Mine(server: bool, id: Id) { id != 0 && (if server then id % 2 == 0 else id % 2 == 1) }

  /** Section 5.1.1 of RFC 7540: odd streams are those of the client, even ones of the server, and 0 is nobody's. */
  lemma Parity(k: nat)
    ensures Mine(false, 2 * k + 1) && !Mine(true, 2 * k + 1) && Mine(true, 2 * k + 2) && !Mine(false, 2 * k + 2)
    ensures !Mine(true, 0) && !Mine(false, 0)
  {
  }

  function KindOf(server: bool, id: Id, s: Stream): Kind
  {
    if s.closed then Closed
    else if s.state == IdleState then Idle
    else if s.push then (if Mine(server, id) then ReservedLocal else ReservedRemote)
    else if Mine(server, id) then Outgoing else Incoming
  }

  function Members(server: bool, streams: map<Id, Stream>, k: Kind): set<Id>
  {
    set id | id in streams && KindOf(server, id, streams[id]) == k
  }

  function Count(server: bool, streams: map<Id, Stream>, k: Kind): nat { |Members(server, streams, k)| }

  lemma MembersUpdate(server: bool, streams: map<Id, Stream>, id: Id, s: Stream, k: Kind)
    ensures Members(server, streams[id := s], k)
            == (if KindOf(server, id, s) == k then Members(server, streams, k) + {id}
                else Members(server, streams, k) - {id})
    ensures id in Members(server, streams, k) <==> id in streams && KindOf(server, id, streams[id]) == k
  {
    hide KindOf;
    var after := Members(server, streams[id := s], k);
    forall x ensures x in after <==> x in (if KindOf(server, id, s) == k then Members(server, streams, k) + {id}
                                           else Members(server, streams, k) - {id}) {
    }
  }

  /** A stream changes its kind, or comes. */
  lemma Recount(server: bool, streams: map<Id, Stream>, id: Id, s: Stream, k: Kind)
    ensures Count(server, streams[id := s], k)
            == Count(server, streams, k) + (if KindOf(server, id, s) == k then 1 else 0)
               - (if id in streams && KindOf(server, id, streams[id]) == k then 1 else 0)
  {
    hide KindOf, Members;
    MembersUpdate(server, streams, id, s, k);
  }

  /** A stream goes. */
  lemma Discount(server: bool, streams: map<Id, Stream>, id: Id, k: Kind)
    requires id in streams
    ensures Members(server, streams - {id}, k) == Members(server, streams, k) - {id}
    ensures Count(server, streams - {id}, k)
            == Count(server, streams, k) - (if KindOf(server, id, streams[id]) == k then 1 else 0)
  {
    hide KindOf;
    assert Members(server, streams - {id}, k) == Members(server, streams, k) - {id};
  }

  /** A list holds exactly the streams of one kind. */
  ghost predicate Lists(l: seq<Id>, members: set<Id>) { Distinct(l) && forall id :: id in l <==> id in members }

  lemma {:induction false} ListLength(l: seq<Id>, members: set<Id>)
    requires Lists(l, members)
    ensures |l| == |members|
    decreases |l|
  {
    if l == [] {
      assert members == {};
    } else {
      var x := l[0];
      forall id ensures id in l[1..] <==> id in members - {x} {
        if id in l && id != x {
          var k :| 0 <= k < |l| && l[k] == id;
          assert l[1..][k - 1] == id;
        }
      }
      assert x in members;
      ListLength(l[1..], members - {x});
    }
  }

  lemma ListAppend(l: seq<Id>, members: set<Id>, id: Id)
    requires Lists(l, members) && id !in members
    ensures Lists(l + [id], members + {id})
  {
  }

  lemma ListCut(l: seq<Id>, members: set<Id>, i: nat)
    requires Lists(l, members) && i < |l|
    ensures Lists(l[..i] + l[i + 1..], members - {l[i]})
  {
    var t := l[..i] + l[i + 1..];
    forall id ensures id in t <==> id in members - {l[i]} {
      if id in l && id != l[i] {
        var k :| 0 <= k < |l| && l[k] == id;
        assert t[if k < i then k else k - 1] == id;
      }
    }
  }

  /** A list without one of its entries, the others in the same order. */
  function Without(l: seq<Id>, id: Id): seq<Id>
  {
    if l == [] then [] else (if l[0] == id then [] else [l[0]]) + Without(l[1..], id)
  }

  lemma {:induction false} NothingWithout(l: seq<Id>, id: Id)
    requires id !in l
    ensures Without(l, id) == l
  {
    if l != [] { NothingWithout(l[1..], id); }
  }

  lemma {:induction false} CutWithout(l: seq<Id>, i: nat)
    requires i < |l| && Distinct(l)
    ensures Without(l, l[i]) == l[..i] + l[i + 1..]
  {
    if i == 0 {
      assert l[1..] == l[..0] + l[1..];
      NothingWithout(l[1..], l[0]);
    } else {
      CutWithout(l[1..], i - 1);
      assert l[..i] + l[i + 1..] == [l[0]] + (l[1..][..i - 1] + l[1..][i..]);
    }
  }

  /** The streams in a list. */
  function Ids(l: seq<Id>): set<Id> { set id | id in l }

  datatype Counters = Counters(outgoing: int, incoming: int, reserved: int, closed: int, idle: int)

  /** All the state this module is about. */
  datatype Session = Session(server: bool, streams: map<Id, Stream>, closed: seq<Id>, idle: seq<Id>, n: Counters)

  ghost predicate Right(s: Session)
  {
    && s.n.outgoing == Count(s.server, s.streams, Outgoing)
    && s.n.incoming == Count(s.server, s.streams, Incoming)
    && s.n.reserved == Count(s.server, s.streams, ReservedRemote)
    && s.n.closed == Count(s.server, s.streams, Closed) && Lists(s.closed, Members(s.server, s.streams, Closed))
    && s.n.idle == Count(s.server, s.streams, Idle) && Lists(s.idle, Members(s.server, s.streams, Idle))
  }

  /** `k` streams more of this kind. */
  function Moved(n: Counters, kind: Kind, k: int): Counters
  {
    match kind
    case Outgoing => n.(outgoing := n.outgoing + k)
    case Incoming => n.(incoming := n.incoming + k)
    case ReservedRemote => n.(reserved := n.reserved + k)
    case ReservedLocal => n
    case Idle => n.(idle := n.idle + k)
    case Closed => n.(closed := n.closed + k)
  }

  /** The stream `id` has become `st`, and counters and lists were changed to match. */
  lemma Settled(s: Session, id: Id, st: Stream, t: Session)
    requires Right(s) && t.server == s.server && t.streams == s.streams[id := st]
    requires var now := KindOf(s.server, id, st);
             t.n == Moved(if id in s.streams then Moved(s.n, KindOf(s.server, id, s.streams[id]), -1) else s.n, now, 1)
    requires Lists(t.closed, Members(t.server, t.streams, Closed)) && Lists(t.idle, Members(t.server, t.streams, Idle))
    ensures Right(t)
  {
    hide Members, Count, Lists, KindOf;
    Recount(s.server, s.streams, id, st, Outgoing);
    Recount(s.server, s.streams, id, st, Incoming);
    Recount(s.server, s.streams, id, st, ReservedRemote);
    Recount(s.server, s.streams, id, st, Closed);
    Recount(s.server, s.streams, id, st, Idle);
  }

  /** The stream `id` is gone. */
  lemma Gone(s: Session, id: Id, t: Session)
    requires Right(s) && id in s.streams && t.server == s.server && t.streams == s.streams - {id}
    requires t.n == Moved(s.n, KindOf(s.server, id, s.streams[id]), -1)
    requires Lists(t.closed, Members(t.server, t.streams, Closed)) && Lists(t.idle, Members(t.server, t.streams, Idle))
    ensures Right(t)
  {
    hide Members, Count, Lists, KindOf;
    Discount(s.server, s.streams, id, Outgoing);
    Discount(s.server, s.streams, id, Incoming);
    Discount(s.server, s.streams, id, ReservedRemote);
    Discount(s.server, s.streams, id, Closed);
    Discount(s.server, s.streams, id, Idle);
  }

  /** A list of a kind that neither loses nor gains the stream. */
  lemma ListKept(s: Session, l: seq<Id>, id: Id, st: Stream, k: Kind)
    requires Lists(l, Members(s.server, s.streams, k)) && KindOf(s.server, id, st) != k
    requires id in s.streams ==> KindOf(s.server, id, s.streams[id]) != k
    ensures Lists(l, Members(s.server, s.streams[id := st], k))
  {
    hide KindOf, Lists, Members;
    MembersUpdate(s.server, s.streams, id, st, k);
    assert Members(s.server, s.streams, k) - {id} == Members(s.server, s.streams, k);
  }

  lemma ListGains(s: Session, l: seq<Id>, id: Id, st: Stream, k: Kind)
    requires Lists(l, Members(s.server, s.streams, k)) && KindOf(s.server, id, st) == k
    requires id in s.streams ==> KindOf(s.server, id, s.streams[id]) != k
    ensures Lists(l + [id], Members(s.server, s.streams[id := st], k))
  {
    hide KindOf, Lists, Members;
    MembersUpdate(s.server, s.streams, id, st, k);
    ListAppend(l, Members(s.server, s.streams, k), id);
  }

  lemma ListLoses(s: Session, l: seq<Id>, i: nat, st: Stream, k: Kind)
    requires i < |l| && Lists(l, Members(s.server, s.streams, k)) && KindOf(s.server, l[i], st) != k
    ensures Lists(l[..i] + l[i + 1..], Members(s.server, s.streams[l[i] := st], k))
  {
    hide KindOf, Lists, Members;
    MembersUpdate(s.server, s.streams, l[i], st, k);
    ListCut(l, Members(s.server, s.streams, k), i);
  }

  /** The streams of the session, updated in place. */
  class Streams {
    var s: Session

    ghost predicate Valid()
      reads this
    {
      Right(s)
    }

    constructor (server: bool)
      ensures Valid() && s.streams == map[] && s.server == server
    {
      s := Session(server, map[], [], [], Counters(0, 0, 0, 0, 0));
    }

    /** nghttp2_session_get_stream: neither closed nor idle. */
    predicate Usable(id: Id)
      reads this
    {
      id in s.streams && !s.streams[id].closed && s.streams[id].state != IdleState
    }

    /**
     * nghttp2_session_open_stream without the dependency tree: a new stream, or an idle one that is opened.
     */
    method OpenStream(id: Id, state: State)
      requires Valid() && (id in s.streams ==> KindOf(s.server, id, s.streams[id]) == Idle)
      modifies this
      ensures Valid() && s.server == old(s.server)
      ensures s.streams == old(s.streams)[id := Stream(state, state == ReservedState, false)]
      ensures s.closed == old(s.closed)
      ensures s.idle == Without(old(s.idle), id) + if state == IdleState then [id] else []
    {
      hide Right, Members, Count, Lists, Without;
      RightLists(s);
      ghost var st := Stream(state, state == ReservedState, false);
      IdleWithout(s, id);
      if id in s.streams {
        var i := FindIdle(id);
        IdleCut(s, i);
        if state != IdleState { ListLoses(s, s.idle, i, st, Idle); } else { Reidled(s, i, st); }
        s := s.(idle := s.idle[..i] + s.idle[i + 1..], n := s.n.(idle := s.n.idle - 1));
      } else if state == IdleState {
        ListGains(s, s.idle, id, st, Idle);
      } else {
        ListKept(s, s.idle, id, st, Idle);
      }
      ListKept(old(s), s.closed, id, st, Closed);
      s := s.(streams := s.streams[id := Stream(state, state == ReservedState, false)]);
      match state {
        case ReservedState =>
          if !Mine(s.server, id) { s := s.(n := s.n.(reserved := s.n.reserved + 1)); }
        case IdleState =>
          s := s.(idle := s.idle + [id], n := s.n.(idle := s.n.idle + 1));
        case LiveState =>
          if Mine(s.server, id) {
            s := s.(n := s.n.(outgoing := s.n.outgoing + 1));
          } else {
            s := s.(n := s.n.(incoming := s.n.incoming + 1));
          }
      }
      Settled(old(s), id, st, s);
    }

    /** Where the idle list holds the stream; the source finds it through the stream's own links. */
    method FindIdle(id: Id) returns (i: nat)
      requires Valid() && id in s.streams && KindOf(s.server, id, s.streams[id]) == Idle
      ensures i < |s.idle| && s.idle[i] == id
    {
      assert id in s.idle by { assert id in Members(s.server, s.streams, Idle); }
      i := 0;
      while s.idle[i] != id
        invariant 0 <= i < |s.idle| && id in s.idle[i..]
        decreases |s.idle| - i
      {
        assert s.idle[i..] == [s.idle[i]] + s.idle[i + 1..];
        i := i + 1;
      }
    }

    /**
     * nghttp2_session_close_stream: false if there is no such stream.  A server keeps the streams of its peer
     * while they are in the dependency tree.
     */
    method CloseStream(id: Id, keep: bool) returns (ok: bool)
      requires Valid()
      modifies this
      ensures Valid() && s.server == old(s.server) && ok == old(Usable(id))
      ensures var kept := keep && s.server && !Mine(s.server, id);
              s.streams == if !ok then old(s.streams)
                else if kept then old(s.streams)[id := old(s.streams)[id].(closed := true)]
                           else old(s.streams) - {id}
      ensures s.idle == old(s.idle)
      ensures s.closed == old(s.closed) + if ok && keep && s.server && !Mine(s.server, id) then [id] else []
    {
      hide Right, Members, Count, Lists;
      RightLists(s);
      if id !in s.streams || s.streams[id].closed || s.streams[id].state == IdleState { return false; }
      ok := true;
      var st := s.streams[id];
      var mine := Mine(s.server, id);
      if st.push {
        if !mine { s := s.(n := s.n.(reserved := s.n.reserved - 1)); }
      } else if mine {
        s := s.(n := s.n.(outgoing := s.n.outgoing - 1));
      } else {
        s := s.(n := s.n.(incoming := s.n.incoming - 1));
      }
      var closed := st.(closed := true);
      if keep && s.server && !mine {
        ListKept(old(s), s.idle, id, closed, Idle);
        ListGains(old(s), s.closed, id, closed, Closed);
        s := s.(streams := s.streams[id := closed], closed := s.closed + [id], n := s.n.(closed := s.n.closed + 1));
        Settled(old(s), id, closed, s);
      } else {
        DropKept(old(s), s.idle, id, Idle);
        DropKept(old(s), s.closed, id, Closed);
        s := s.(streams := s.streams - {id});
        Gone(old(s), id, s);
      }
    }

    /** HEADERS that answer a promise of ours have been sent. */
    method PushResponseSent(id: Id)
      requires Valid() && id in s.streams && KindOf(s.server, id, s.streams[id]) == ReservedLocal
      modifies this
      ensures Valid() && s.server == old(s.server) && s.streams == old(s.streams)[id := Stream(LiveState, false, false)]
      ensures s.closed == old(s.closed) && s.idle == old(s.idle)
    {
      hide Right, Members, Count, Lists;
      RightLists(s);
      var st := Stream(LiveState, false, false);
      ListKept(s, s.idle, id, st, Idle);
      ListKept(s, s.closed, id, st, Closed);
      s := s.(streams := s.streams[id := st], n := s.n.(outgoing := s.n.outgoing + 1));
      Settled(old(s), id, st, s);
    }

    /** HEADERS that answer a promise of the peer have been received. */
    method PushResponseReceived(id: Id)
      requires Valid() && id in s.streams && KindOf(s.server, id, s.streams[id]) == ReservedRemote
      modifies this
      ensures Valid() && s.server == old(s.server) && s.streams == old(s.streams)[id := Stream(LiveState, false, false)]
      ensures s.closed == old(s.closed) && s.idle == old(s.idle)
    {
      hide Right, Members, Count, Lists;
      RightLists(s);
      var st := Stream(LiveState, false, false);
      ListKept(s, s.idle, id, st, Idle);
      ListKept(s, s.closed, id, st, Closed);
      s := s.(streams := s.streams[id := st]);
      if !Mine(s.server, id) { s := s.(n := s.n.(reserved := s.n.reserved - 1)); }
      s := s.(n := s.n.(incoming := s.n.incoming + 1));
      Settled(old(s), id, st, s);
    }

    /**
     * nghttp2_session_adjust_closed_stream: the streams closed longest ago go, as few as make room for the incoming
     * ones.  `local` and `pending` are the limits on concurrent streams, acknowledged by the peer and not yet.
     */
    method AdjustClosed(local: nat, pending: nat)
      requires Valid()
      modifies this
      ensures Valid() && s == old(s).(streams := s.streams, closed := s.closed, n := s.n)
      ensures s.n == old(s.n).(closed := |s.closed|)
      ensures var max := if local == NO_LIMIT then pending else local;
              var k := |old(s.closed)| - |s.closed|;
              && 0 <= k && s.closed == old(s.closed)[k..] && s.streams == old(s.streams) - Ids(old(s.closed)[..k])
              && (s.closed == [] || |s.closed| + s.n.incoming <= max)
              && (k > 0 ==> |s.closed| + 1 + s.n.incoming > max)
    {
      hide Right, Members, Count, Lists;
      var max := if local == NO_LIMIT then pending else local;
      ghost var k := 0;
      ClosedLength(s);
      while s.n.closed > 0 && s.n.closed + s.n.incoming > max
        invariant Valid() && s == old(s).(streams := s.streams, closed := s.closed, n := s.n)
        invariant s.n == old(s.n).(closed := |s.closed|)
        invariant 0 <= k <= |old(s.closed)| && s.closed == old(s.closed)[k..]
        invariant s.streams == old(s.streams) - Ids(old(s.closed)[..k])
        invariant k > 0 ==> |s.closed| + 1 + s.n.incoming > max
        decreases s.n.closed
      {
        HeadOf(s, s.closed, Closed);
        var head := s.closed[0];
        ghost var before := s;
        DropKept(s, s.idle, head, Idle);
        DropHead(s, s.closed, Closed);
        OneMore(old(s.closed), k);
        s := s.(streams := s.streams - {head}, closed := s.closed[1..], n := s.n.(closed := s.n.closed - 1));
        Gone(before, head, s);
        k := k + 1;
      }
    }

    /** nghttp2_session_adjust_idle_stream: the same for idle streams, of which at least 16 and at most 100 may stay. */
    method AdjustIdle(local: nat, pending: nat)
      requires Valid()
      modifies this
      ensures Valid() && s == old(s).(streams := s.streams, idle := s.idle, n := s.n)
      ensures s.n == old(s.n).(idle := |s.idle|)
      ensures var max := Min(100, Max(16, Min(local, pending)));
              var k := |old(s.idle)| - |s.idle|;
              && 0 <= k && s.idle == old(s.idle)[k..] && s.streams == old(s.streams) - Ids(old(s.idle)[..k])
              && |s.idle| <= max && (k > 0 ==> |s.idle| == max)
    {
      hide Right, Members, Count, Lists;
      var max := Min(100, Max(16, Min(local, pending)));
      ghost var k := 0;
      IdleLength(s);
      while s.n.idle > max
        invariant Valid() && s == old(s).(streams := s.streams, idle := s.idle, n := s.n)
        invariant s.n == old(s.n).(idle := |s.idle|)
        invariant 0 <= k <= |old(s.idle)| && s.idle == old(s.idle)[k..]
        invariant s.streams == old(s.streams) - Ids(old(s.idle)[..k])
        invariant k > 0 ==> |s.idle| >= max
        decreases s.n.idle
      {
        HeadOf(s, s.idle, Idle);
        var head := s.idle[0];
        ghost var before := s;
        DropKept(s, s.closed, head, Closed);
        DropHead(s, s.idle, Idle);
        OneMore(old(s.idle), k);
        s := s.(streams := s.streams - {head}, idle := s.idle[1..], n := s.n.(idle := s.n.idle - 1));
        Gone(before, head, s);
        k := k + 1;
      }
    }

    /** Streams a GOAWAY frame refuses: those of one side beyond the last one. */
    predicate Refused(id: Id, last: Id, incoming: bool)
      reads this
    {
      Usable(id) && Mine(s.server, id) != incoming && id > last
    }

    /** find_stream_on_goaway_func, over all streams. */
    method FindOnGoaway(last: Id, incoming: bool) returns (found: set<Id>)
      requires Valid()
      ensures forall id :: id in found <==> Refused(id, last, incoming)
    {
      found := {};
      var rest := s.streams.Keys;
      while rest != {}
        invariant rest <= s.streams.Keys
        invariant forall id :: id in found <==> id !in rest && Refused(id, last, incoming)
        decreases |rest|
      {
        var id: Id :| id in rest;
        var stream := s.streams[id];
        var skip := if Mine(s.server, id) then incoming else !incoming;
        if !skip && stream.state != IdleState && !stream.closed && id > last { found := found + {id}; }
        rest := rest - {id};
      }
    }

    /** session_close_stream_on_goaway: every refused stream is closed, and no other is touched. */
    method CloseOnGoaway(last: Id, incoming: bool, keep: bool)
      requires Valid()
      modifies this
      ensures Valid() && s.server == old(s.server)
      ensures forall id :: !Refused(id, last, incoming)
      ensures forall id :: id in old(s.streams) && !old(Refused(id, last, incoming)) ==>
                id in s.streams && s.streams[id] == old(s.streams)[id]
      ensures forall id :: id in old(s.streams) && old(Refused(id, last, incoming)) ==>
                && (id in s.streams <==> keep && s.server && !Mine(s.server, id))
                && (id in s.streams ==> s.streams[id] == old(s.streams)[id].(closed := true))
      ensures s.streams.Keys <= old(s.streams.Keys) && s.idle == old(s.idle) && old(s.closed) <= s.closed
    {
      hide Right;
      var todo := FindOnGoaway(last, incoming);
      while todo != {}
        invariant Valid() && s.server == old(s.server) && s.streams.Keys <= old(s.streams.Keys)
        invariant forall id :: id in todo <==> Refused(id, last, incoming)
        invariant forall id :: id in todo ==> old(Refused(id, last, incoming)) && s.streams[id] == old(s.streams)[id]
        invariant forall id :: id in old(s.streams) && old(Refused(id, last, incoming)) && id !in todo ==>
                    && (id in s.streams <==> keep && s.server && !Mine(s.server, id))
                    && (id in s.streams ==> s.streams[id] == old(s.streams)[id].(closed := true))
        invariant s.idle == old(s.idle) && old(s.closed) <= s.closed
        invariant forall id :: id in old(s.streams) && !old(Refused(id, last, incoming)) ==>
                    id in s.streams && s.streams[id] == old(s.streams)[id]
        decreases |todo|
      {
        var id: Id :| id in todo;
        var ok := CloseStream(id, keep);
        todo := todo - {id};
      }
    }

    /** nghttp2_session_get_num_active_streams. */
    method NumActive() returns (n: int)
      requires Valid()
      ensures n == |set id | id in s.streams && Usable(id)|
    {
      n := |s.streams| - s.n.closed - s.n.idle;
      ActiveCount(s.server, s.streams, set id | id in s.streams && Usable(id));
    }
  }

  lemma RightLists(s: Session)
    requires Right(s)
    ensures Lists(s.closed, Members(s.server, s.streams, Closed)) && Lists(s.idle, Members(s.server, s.streams, Idle))
    ensures s.n.closed >= 0 && s.n.idle >= 0
  {
  }

  const NO_LIMIT := 0xFFFF_FFFF

  lemma ClosedLength(s: Session)
    requires Right(s)
    ensures s.n.closed == |s.closed| && s.closed[0..] == s.closed && s.streams - Ids(s.closed[..0]) == s.streams
  {
    ListLength(s.closed, Members(s.server, s.streams, Closed));
  }

  lemma IdleLength(s: Session)
    requires Right(s)
    ensures s.n.idle == |s.idle| && s.idle[0..] == s.idle && s.streams - Ids(s.idle[..0]) == s.streams
  {
    ListLength(s.idle, Members(s.server, s.streams, Idle));
  }

  lemma OneMore(l: seq<Id>, k: nat)
    requires k < |l|
    ensures l[k..][0] == l[k] && l[k..][1..] == l[k + 1..] && Ids(l[..k + 1]) == Ids(l[..k]) + {l[k]}
  {
    assert l[..k + 1] == l[..k] + [l[k]];
  }

  lemma IdleWithout(s: Session, id: Id)
    requires Right(s)
    ensures id !in s.streams ==> Without(s.idle, id) == s.idle
  {
    if id !in s.streams {
      assert id !in Members(s.server, s.streams, Idle);
      NothingWithout(s.idle, id);
    }
  }

  lemma IdleCut(s: Session, i: nat)
    requires Right(s) && i < |s.idle|
    ensures Without(s.idle, s.idle[i]) == s.idle[..i] + s.idle[i + 1..]
  {
    CutWithout(s.idle, i);
  }

  /** An idle stream opened as idle again goes to the end of the list. */
  lemma Reidled(s: Session, i: nat, st: Stream)
    requires i < |s.idle| && Lists(s.idle, Members(s.server, s.streams, Idle))
    requires KindOf(s.server, s.idle[i], st) == Idle
    ensures Lists(s.idle[..i] + s.idle[i + 1..] + [s.idle[i]], Members(s.server, s.streams[s.idle[i] := st], Idle))
  {
    hide KindOf, Members, Lists;
    var id := s.idle[i];
    var m := Members(s.server, s.streams, Idle);
    MembersUpdate(s.server, s.streams, id, st, Idle);
    ListCut(s.idle, m, i);
    ListAppend(s.idle[..i] + s.idle[i + 1..], m - {id}, id);
    assert m - {id} + {id} == m + {id};
  }

  /** A list of a kind the stream is not of. */
  lemma DropKept(s: Session, l: seq<Id>, id: Id, k: Kind)
    requires id in s.streams && Lists(l, Members(s.server, s.streams, k)) && KindOf(s.server, id, s.streams[id]) != k
    ensures Lists(l, Members(s.server, s.streams - {id}, k))
  {
    hide Lists;
    Discount(s.server, s.streams, id, k);
    assert Members(s.server, s.streams, k) - {id} == Members(s.server, s.streams, k);
  }

  lemma DropHead(s: Session, l: seq<Id>, k: Kind)
    requires l != [] && l[0] in s.streams && Lists(l, Members(s.server, s.streams, k))
    ensures Lists(l[1..], Members(s.server, s.streams - {l[0]}, k))
  {
    hide Lists, Members, KindOf;
    Discount(s.server, s.streams, l[0], k);
    ListCut(l, Members(s.server, s.streams, k), 0);
    assert l[..0] + l[1..] == l[1..];
  }

  /** The source's assertion that a list with a positive counter has a head. */
  lemma HeadOf(s: Session, l: seq<Id>, k: Kind)
    requires Right(s)
    requires (if k == Closed then l == s.closed && s.n.closed > 0 else k == Idle && l == s.idle && s.n.idle > 0)
    ensures l != [] && l[0] in s.streams && KindOf(s.server, l[0], s.streams[l[0]]) == k
    ensures Lists(s.closed, Members(s.server, s.streams, Closed)) && Lists(s.idle, Members(s.server, s.streams, Idle))
  {
    ListLength(l, Members(s.server, s.streams, k));
    assert l[0] in Members(s.server, s.streams, k);
  }

  lemma UnionSize(a: set<Id>, b: set<Id>)
    requires a !! b
    ensures |a + b| == |a| + |b|
  {
  }

  lemma ActiveCount(server: bool, streams: map<Id, Stream>, usable: set<Id>)
    requires forall id :: id in usable <==> id in streams && !streams[id].closed && streams[id].state != IdleState
    ensures |streams| == |usable| + Count(server, streams, Closed) + Count(server, streams, Idle)
  {
    var c, i := Members(server, streams, Closed), Members(server, streams, Idle);
    assert streams.Keys == usable + c + i;
    UnionSize(usable, c);
    UnionSize(usable + c, i);
    assert |streams| == |streams.Keys|;
  }
}
