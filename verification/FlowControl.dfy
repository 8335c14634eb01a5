/**
 * Flow control of one window, of the connection or of a stream, between the endpoint that sends DATA and
 * nghttp2 as the endpoint that receives it (lib/nghttp2_helper.c, lib/nghttp2_submit.c,
 * lib/nghttp2_session.c).  Frames travel in two ordered channels.
 */
module FlowControl {
  import opened Bytes

  const MAX_WINDOW := 0x7FFF_FFFF
  const INT32_MIN := -0x8000_0000

  /** The receiving side: the advertised size, the bytes received and not yet returned, the size reduction. */
  datatype Rx = Rx(local: int, recv: int, reduction: int, consumed: int, queued: bool)

  /** `increment` is the WINDOW_UPDATE to send, none if it is 0. */
  datatype Change = Changed(rx: Rx, increment: int) | Refused

  // ---- the receiving side ------------------------------------------------------

  /** nghttp2_adjust_local_window_size. */
  function Adjust(rx: Rx, delta: int): Change
  {
    if delta > 0 then
      var left := Max(0, rx.recv) - delta;
      if left >= 0 then Changed(rx.(recv := left), delta)
      else if rx.local > MAX_WINDOW + left then Refused
      else
        var paid := Min(rx.reduction, -left);
        Changed(rx.(local := rx.local - left, reduction := rx.reduction - paid,
                    recv := if rx.recv < 0 then rx.recv + paid else paid), delta - paid)
    else if rx.local + delta < 0 || rx.recv < INT32_MIN - delta || rx.reduction > MAX_WINDOW + delta then Refused
    else Changed(rx.(local := rx.local + delta, recv := rx.recv + delta, reduction := rx.reduction - delta), 0)
  }

  /** nghttp2_increase_local_window_size. */
  function Increase(rx: Rx, delta: int): Change
    requires delta >= 0
  {
    if rx.local > MAX_WINDOW - delta then Refused
    else
      var paid := Min(rx.reduction, delta);
      Changed(rx.(local := rx.local + delta, reduction := rx.reduction - paid, recv := rx.recv + paid), delta - paid)
  }

  /** nghttp2_submit_window_update. */
  function SubmitUpdate(rx: Rx, increment: int): Change
  {
    if increment == 0 then Changed(rx, 0)
    else
      var c := Adjust(rx, increment);
      if c.Changed? && c.increment > 0
      then Changed(c.rx.(consumed := Max(0, c.rx.consumed - c.increment), queued := true), c.increment)
      else c
  }

  /** nghttp2_session_set_local_window_size. */
  function SetLocal(rx: Rx, size: int): Change
  {
    if size < 0 then Refused
    else if size == rx.local then Changed(rx, 0)
    else if size < rx.local then Adjust(rx, size - rx.local)
    else
      var c := Increase(rx, size - rx.local);
      if c.Changed? && c.increment > 0 then Changed(c.rx.(queued := true), c.increment) else c
  }

  /** Half of a size, rounded towards zero. */
  function Half(x: int): int { if x >= 0 then x / 2 else -((-x) / 2) }

  /** nghttp2_should_send_window_update. */
  predicate ShouldSend(local: int, recv: int) { recv > 0 && recv >= Half(local) }

  /** The end of session_update_recv_*_window_size: return what was received. */
  function ReturnReceived(rx: Rx, send: bool): Change
  {
    if send && !rx.queued && ShouldSend(rx.local, rx.recv)
    then Changed(rx.(recv := 0, queued := true), rx.recv) else Changed(rx, 0)
  }

  /** session_update_recv_*_window_size: Refused stands for the flow-control error raised against the peer. */
  function Receive(rx: Rx, n: nat, send: bool): Change
  {
    if rx.recv > rx.local - n || rx.recv > MAX_WINDOW - n then Refused
    else ReturnReceived(rx.(recv := rx.recv + n), send)
  }

  /** session_update_consumed_size. */
  function Consume(rx: Rx, n: nat): Change
  {
    if rx.consumed > MAX_WINDOW - n then Refused
    else
      var r := rx.(consumed := rx.consumed + n);
      var size := Min(r.consumed, r.recv);
      if !r.queued && ShouldSend(r.local, size)
      then Changed(r.(recv := r.recv - size, consumed := r.consumed - size, queued := true), size)
      else Changed(r, 0)
  }

  /** A WINDOW_UPDATE has left the queue (session_after_frame_sent1). */
  function UpdateSent(rx: Rx, auto: bool): Change
  {
    var r := rx.(queued := false);
    if auto then Receive(r, 0, true) else Consume(r, 0)
  }

  /** The peer has acknowledged a change of the initial window size. */
  function Acknowledged(rx: Rx, delta: int, auto: bool): Change
  {
    if INT32_MIN > rx.local + delta || rx.local + delta > MAX_WINDOW then Refused
    else ReturnReceived(rx.(local := rx.local + delta), auto)
  }

  /** The fields of a session or stream that the functions above change in place. */
  class LocalWindow {
    var local: int
    var recv: int
    var reduction: int
    var consumed: int
    var queued: bool

    function View(): Rx
      reads this
    {
      Rx(local, recv, reduction, consumed, queued)
    }

    /** nghttp2_adjust_local_window_size; `delta` comes back as the increment to send. */
    method AdjustLocalWindowSize(delta0: int) returns (ok: bool, delta: int)
      modifies this
      ensures ok == Adjust(old(View()), delta0).Changed?
      ensures if ok then Adjust(old(View()), delta0) == Changed(View(), delta) else View() == old(View())
      ensures ok ==> local - recv == old(local - recv) + delta
    {
      delta := delta0;
      if delta > 0 {
        var newRecv := Max(0, recv) - delta;
        if newRecv >= 0 {
          recv := newRecv;
          return true, delta;
        }
        var grow := -newRecv;
        if local > MAX_WINDOW - grow { return false, delta; }
        local := local + grow;
        var paid := Min(reduction, grow);
        reduction := reduction - paid;
        if recv < 0 { recv := recv + paid; } else { recv := paid; }
        delta := delta - paid;
        return true, delta;
      }
      if local + delta < 0 || recv < INT32_MIN - delta || reduction > MAX_WINDOW + delta { return false, delta; }
      local := local + delta;
      recv := recv + delta;
      reduction := reduction - delta;
      return true, 0;
    }

    /** nghttp2_increase_local_window_size. */
    method IncreaseLocalWindowSize(delta0: int) returns (ok: bool, delta: int)
      requires delta0 >= 0
      modifies this
      ensures ok == Increase(old(View()), delta0).Changed?
      ensures if ok then Increase(old(View()), delta0) == Changed(View(), delta) else View() == old(View())
      ensures ok ==> local - recv == old(local - recv) + delta
    {
      delta := delta0;
      if local > MAX_WINDOW - delta { return false, delta; }
      local := local + delta;
      var paid := Min(reduction, delta);
      reduction := reduction - paid;
      recv := recv + paid;
      delta := delta - paid;
      return true, delta;
    }

    /** session_update_consumed_size; `increment` is the WINDOW_UPDATE put in the queue, if any. */
    method UpdateConsumedSize(n: nat) returns (ok: bool, increment: int)
      modifies this
      ensures ok == Consume(old(View()), n).Changed?
      ensures if ok then Consume(old(View()), n) == Changed(View(), increment) else View() == old(View())
      ensures ok ==> local - recv == old(local - recv) + increment
    {
      increment := 0;
      if consumed > MAX_WINDOW - n { return false, 0; }
      consumed := consumed + n;
      if !queued {
        var size := Min(consumed, recv);
        if ShouldSend(local, size) {
          increment := size;
          queued := true;
          recv := recv - size;
          consumed := consumed - size;
        }
      }
      return true, increment;
    }

    /** nghttp2_submit_window_update; `increment` is the WINDOW_UPDATE put in the queue, if any. */
    method SubmitWindowUpdate(increment0: int) returns (ok: bool, increment: int)
      modifies this
      ensures ok == SubmitUpdate(old(View()), increment0).Changed?
      ensures if ok then SubmitUpdate(old(View()), increment0) == Changed(View(), increment) else View() == old(View())
      ensures ok ==> local - recv == old(local - recv) + increment
    {
      if increment0 == 0 { return true, 0; }
      ok, increment := AdjustLocalWindowSize(increment0);
      if ok && increment > 0 {
        consumed := Max(0, consumed - increment);
        queued := true;
      }
    }

    /** nghttp2_session_set_local_window_size. */
    method SetLocalWindowSize(size: int) returns (ok: bool, increment: int)
      modifies this
      ensures ok == SetLocal(old(View()), size).Changed?
      ensures if ok then SetLocal(old(View()), size) == Changed(View(), increment) else View() == old(View())
      ensures ok ==> local - recv == old(local - recv) + increment
    {
      if size < 0 { return false, 0; }
      var grow := size - local;
      if grow == 0 { return true, 0; }
      if grow < 0 {
        ok, increment := AdjustLocalWindowSize(grow);
      } else {
        ok, increment := IncreaseLocalWindowSize(grow);
        if ok && increment > 0 { queued := true; }
      }
    }
  }

  /** What the receiver advertises minus what it has received changes by exactly what it returns. */
  lemma AdjustBalance(rx: Rx, delta: int)
    ensures var c := Adjust(rx, delta);
            c.Changed? ==> c.rx.local - c.rx.recv == rx.local - rx.recv + c.increment
    ensures rx.reduction >= 0 && Adjust(rx, delta).Changed? ==> 0 <= Adjust(rx, delta).increment <= Max(0, delta)
  {
  }

  /** DATA is refused exactly if it does not fit in the window, or in 31 bits. */
  lemma ReceiveIff(rx: Rx, n: nat, send: bool)
    ensures Receive(rx, n, send).Refused? <==> rx.recv + n > rx.local || rx.recv + n > MAX_WINDOW
    ensures Receive(rx, n, send).Changed? ==>
              var c := Receive(rx, n, send);
              && c.rx == rx.(recv := rx.recv + n - c.increment, queued := rx.queued || c.increment > 0)
              && c.increment == if send && !rx.queued && ShouldSend(rx.local, rx.recv + n) then rx.recv + n else 0
  {
  }

  /** An update is due when at least half of the window, rounded down, has been used up. */
  lemma ShouldSendIff(local: int, recv: int)
    ensures ShouldSend(local, recv) <==> recv > 0 && 2 * recv + 1 >= local
  {
  }

  /**
   * Raising the size takes back received bytes first, then enlarges the window, which pays off an earlier reduction;
   * only the rest is news for the peer.  It is refused exactly if the window would become too large.
   */
  lemma AdjustRaise(rx: Rx, delta: int)
    requires delta > 0
    ensures var c, grow := Adjust(rx, delta), Max(0, delta - Max(0, rx.recv));
            if grow > 0 && rx.local + grow > MAX_WINDOW then c.Refused?
            else
              && c.Changed? && c.rx.local == rx.local + grow && c.rx.consumed == rx.consumed && c.rx.queued == rx.queued
              && c.increment + (rx.reduction - c.rx.reduction) == delta
              && (rx.reduction >= 0 ==> c.rx.reduction == Max(0, rx.reduction - grow))
  {
  }

  /** Lowering it is remembered as a reduction, and refused exactly if one of the three counts would overflow. */
  lemma AdjustLower(rx: Rx, delta: int)
    requires delta <= 0
    ensures if rx.local + delta < 0 || rx.recv + delta < INT32_MIN || rx.reduction - delta > MAX_WINDOW
            then Adjust(rx, delta).Refused?
            else Adjust(rx, delta) == Changed(Rx(rx.local + delta, rx.recv + delta, rx.reduction - delta, rx.consumed,
                                                 rx.queued), 0)
  {
  }

  /** The size set is the size there is, also after a reduction; what is sent and what pays off the reduction add up. */
  lemma SetExact(rx: Rx, size: int)
    requires rx.reduction >= 0
    ensures size < 0 || (size > MAX_WINDOW && size > rx.local) ==> SetLocal(rx, size).Refused?
    ensures rx.local <= size <= MAX_WINDOW && size >= 0 ==> SetLocal(rx, size).Changed?
    ensures SetLocal(rx, size).Changed? ==>
              var c := SetLocal(rx, size);
              && c.rx.local == size && c.rx.consumed == rx.consumed && c.rx.queued == (rx.queued || c.increment > 0)
              && c.increment + rx.reduction - c.rx.reduction == size - rx.local
              && c.rx.recv - rx.recv == rx.reduction - c.rx.reduction
              && (size > rx.local ==> c.rx.reduction == Max(0, rx.reduction - (size - rx.local)))
  {
  }

  /** Consumed bytes are returned as soon as they make half of the window, and none twice. */
  lemma ConsumeExact(rx: Rx, n: nat)
    ensures Consume(rx, n).Refused? <==> rx.consumed + n > MAX_WINDOW
    ensures Consume(rx, n).Changed? ==>
              var c, size := Consume(rx, n), Min(rx.consumed + n, rx.recv);
              && c.rx.consumed + c.increment == rx.consumed + n && c.rx.recv + c.increment == rx.recv
              && c.rx.local == rx.local && c.rx.reduction == rx.reduction
              && c.rx.queued == (rx.queued || c.increment > 0)
              && c.increment == if !rx.queued && size > 0 && 2 * size + 1 >= rx.local then size else 0
  {
  }

  /** Lowering the size and raising it again is invisible: nothing changes and nothing is sent. */
  lemma LowerAndRestore(rx: Rx, size: int)
    requires rx.reduction >= 0 && 0 <= size < rx.local <= MAX_WINDOW && rx.recv <= rx.local
    requires SetLocal(rx, size).Changed?
    ensures SetLocal(rx, size).increment == 0
    ensures SetLocal(SetLocal(rx, size).rx, rx.local) == Changed(rx, 0)
  {
  }

  // ---- two endpoints -------------------------------------------------------------

  /** From the receiver, on the way. */
  datatype Forward = Update(increment: int) | Initial(delta: int)

  /** From the sender, on the way. */
  datatype Back = Data(length: nat) | Ack(delta: int)

  /**
   * `urgent` and `regular` are the queues of the receiver, with its changes of the initial size and its
   * WINDOW_UPDATEs; `unread` are the bytes the application has received and not consumed.
   */
  datatype Net = Net(send: int, urgent: seq<int>, regular: seq<int>, forward: seq<Forward>, back: seq<Back>, rx: Rx,
                     unread: nat)

  /** Both endpoints agree on the initial size. */
  function Start(size: int): Net { Net(size, [], [], [], [], Rx(size, 0, 0, 0, false), 0) }

  datatype Op =
    | SendData(length: nat)
    | TakeForward                         // the sender processes a frame
    | TakeChunk(length: nat, last: bool)  // the receiver processes part of a DATA frame
    | TakeAck
    | SendFrame                           // the receiver sends the next frame of its queues
    | Submit(increment: int)
    | Set(size: int)
    | Eat(length: nat)                    // nghttp2_session_consume
    | ChangeInitial(delta: int)           // SETTINGS_INITIAL_WINDOW_SIZE, for stream windows

  /** Error is a flow-control error raised against the other endpoint. */
  datatype Outcome = Fine(net: Net) | Error

  predicate Enabled(n: Net, op: Op, auto: bool)
  {
    match op
    case SendData(length) => 1 <= length <= n.send
    case TakeForward => n.forward != []
    case TakeChunk(length, _) => n.back != [] && n.back[0].Data? && 1 <= length <= n.back[0].length
    case TakeAck => n.back != [] && n.back[0].Ack?
    case SendFrame => n.urgent != [] || n.regular != []
    case Eat(length) => !auto && length <= n.unread
    case _ => true
  }

  function Queue(n: Net, c: Change): Outcome
  {
    match c
    case Refused => Error
    case Changed(rx, increment) =>
      Fine(n.(rx := rx, regular := if increment > 0 then n.regular + [increment] else n.regular))
  }

  /** A refused call of the application changes nothing. */
  function Api(n: Net, c: Change): Outcome { if c.Refused? then Fine(n) else Queue(n, c) }

  /** The first WINDOW_UPDATE of the queue is on its way. */
  function Posted(n: Net): Net
    requires n.regular != []
  {
    n.(regular := n.regular[1..], forward := n.forward + [Update(n.regular[0])])
  }

  function Step(n: Net, op: Op, auto: bool): Outcome
    requires Enabled(n, op, auto)
  {
    match op
    case SendData(length) => Fine(n.(send := n.send - length, back := n.back + [Data(length)]))
    case TakeForward =>
      (match n.forward[0]
       case Update(k) =>
         if MAX_WINDOW - k < n.send then Error else Fine(n.(send := n.send + k, forward := n.forward[1..]))
       case Initial(d) =>
         if INT32_MIN > n.send + d || n.send + d > MAX_WINDOW then Error
         else Fine(n.(send := n.send + d, forward := n.forward[1..], back := n.back + [Ack(d)])))
    case TakeChunk(length, last) =>
      var left := n.back[0].length - length;
      var rest := if left == 0 then n.back[1..] else [Data(left)] + n.back[1..];
      Queue(n.(back := rest, unread := n.unread + length), Receive(n.rx, length, auto && !last))
    case TakeAck => Queue(n.(back := n.back[1..]), Acknowledged(n.rx, n.back[0].delta, auto))
    case SendFrame =>
      if n.urgent != [] then Fine(n.(urgent := n.urgent[1..], forward := n.forward + [Initial(n.urgent[0])]))
      else Queue(Posted(n), UpdateSent(n.rx, auto))
    case Submit(increment) => Api(n, SubmitUpdate(n.rx, increment))
    case Set(size) => Api(n, SetLocal(n.rx, size))
    case Eat(length) => Queue(n.(unread := n.unread - length), Consume(n.rx, length))
    case ChangeInitial(d) => Fine(n.(urgent := n.urgent + [d]))
  }

  // ---- conservation ----------------------------------------------------------------

  function Updates(f: seq<Forward>): int
  {
    if f == [] then 0 else (if f[0].Update? then f[0].increment else 0) + Updates(f[1..])
  }

  function Total(us: seq<int>): int { if us == [] then 0 else us[0] + Total(us[1..]) }

  /** How the room of the receiver stands after it has processed `b`. */
  function RoomAfter(room: int, b: seq<Back>): int
    decreases |b|
  {
    if b == [] then room
    else RoomAfter(if b[0].Data? then room - b[0].length else room + b[0].delta, b[1..])
  }

  /** Every DATA frame on the way fits in the room there will be when it arrives. */
  predicate Fits(room: int, b: seq<Back>)
    decreases |b|
  {
    b == [] ||
    (if b[0].Data? then room - b[0].length >= 0 && Fits(room - b[0].length, b[1..])
     else Fits(room + b[0].delta, b[1..]))
  }

  /** No credit is lost or made: what the receiver has room for is with the sender, queued, or on its way. */
  ghost predicate Conserved(n: Net)
  {
    var room := n.rx.local - n.rx.recv;
    && Fits(room, n.back) && RoomAfter(room, n.back) == n.send + Updates(n.forward) + Total(n.regular)
    && RxFine(n.rx) && (n.rx.queued ==> n.regular != [])
    && (forall i :: 0 <= i < |n.forward| && n.forward[i].Update? ==> n.forward[i].increment > 0)
    && (forall i :: 0 <= i < |n.regular| ==> n.regular[i] > 0)
  }

  predicate RxFine(rx: Rx) { rx.reduction >= 0 && 0 <= rx.consumed <= MAX_WINDOW && rx.local <= MAX_WINDOW }

  lemma {:induction false} UpdatesAppend(f: seq<Forward>, x: Forward)
    ensures Updates(f + [x]) == Updates(f) + (if x.Update? then x.increment else 0)
  {
    if f == [] {
      assert f + [x] == [x];
    } else {
      assert (f + [x])[1..] == f[1..] + [x];
      UpdatesAppend(f[1..], x);
    }
  }

  lemma {:induction false} TotalAppend(us: seq<int>, k: int)
    ensures Total(us + [k]) == Total(us) + k
  {
    if us == [] {
      assert us + [k] == [k];
    } else {
      assert (us + [k])[1..] == us[1..] + [k];
      TotalAppend(us[1..], k);
    }
  }

  lemma {:induction false} UpdatesPositive(f: seq<Forward>)
    requires forall i :: 0 <= i < |f| && f[i].Update? ==> f[i].increment > 0
    ensures Updates(f) >= 0
  {
    if f != [] { UpdatesPositive(f[1..]); }
  }

  lemma {:induction false} TotalPositive(us: seq<int>)
    requires forall i :: 0 <= i < |us| ==> us[i] > 0
    ensures Total(us) >= 0
  {
    if us != [] { TotalPositive(us[1..]); }
  }

  lemma {:induction false} BackAppend(room: int, b: seq<Back>, x: Back)
    ensures RoomAfter(room, b + [x]) == RoomAfter(room, b) + (if x.Data? then 0 - x.length else x.delta)
    ensures Fits(room, b + [x]) <==> Fits(room, b) && (x.Data? ==> RoomAfter(room, b) >= x.length)
    decreases |b|
  {
    if b == [] {
      assert b + [x] == [x];
    } else {
      assert (b + [x])[1..] == b[1..] + [x];
      BackAppend(if b[0].Data? then room - b[0].length else room + b[0].delta, b[1..], x);
    }
  }

  /** More room shifts everything by the same amount. */
  lemma {:induction false} RoomShift(room: int, k: int, b: seq<Back>)
    requires k >= 0
    ensures RoomAfter(room + k, b) == RoomAfter(room, b) + k
    ensures Fits(room, b) ==> Fits(room + k, b)
    decreases |b|
  {
    if b != [] {
      var r := if b[0].Data? then room - b[0].length else room + b[0].delta;
      RoomShift(r, k, b[1..]);
    }
  }

  /** The receiver returns credit: its room grows by what it puts in the queue. */
  lemma Credit(n: Net, c: Change)
    requires Conserved(n) && c.Changed? && c.increment >= 0 && RxFine(c.rx)
    requires c.rx.local - c.rx.recv == n.rx.local - n.rx.recv + c.increment
    requires c.rx.queued ==> n.rx.queued || c.increment > 0
    ensures Conserved(Queue(n, c).net)
  {
    RoomShift(n.rx.local - n.rx.recv, c.increment, n.back);
    TotalAppend(n.regular, c.increment);
  }

  lemma ChunkTaken(n: Net, length: nat, rest: seq<Back>)
    requires Conserved(n) && n.back != [] && n.back[0].Data? && 1 <= length <= n.back[0].length
    requires var left := n.back[0].length - length;
             rest == if left == 0 then n.back[1..] else [Data(left)] + n.back[1..]
    ensures n.rx.recv + length <= n.rx.local && RxFine(n.rx)
    ensures Conserved(n.(back := rest, unread := n.unread + length, rx := n.rx.(recv := n.rx.recv + length)))
  {
    var left := n.back[0].length - length;
    assert left > 0 ==> rest[1..] == n.back[1..];
    assert Fits(n.rx.local - n.rx.recv, n.back);
  }

  /** A DATA frame that was sent within the window is never refused, however it is cut into chunks. */
  lemma ChunkAccepted(n: Net, length: nat, last: bool, auto: bool)
    requires Conserved(n) && Enabled(n, TakeChunk(length, last), auto)
    ensures Step(n, TakeChunk(length, last), auto).Fine?
    ensures Conserved(Step(n, TakeChunk(length, last), auto).net)
  {
    hide Conserved;
    var left := n.back[0].length - length;
    var rest := if left == 0 then n.back[1..] else [Data(left)] + n.back[1..];
    var rx := n.rx.(recv := n.rx.recv + length);
    ChunkTaken(n, length, rest);
    var m := n.(back := rest, unread := n.unread + length, rx := rx);
    Credit(m, ReturnReceived(rx, auto && !last));
  }

  lemma ForwardTaken(n: Net)
    requires Conserved(n) && n.forward != []
    ensures Step(n, TakeForward, true).Fine? ==> Conserved(Step(n, TakeForward, true).net)
    ensures Step(n, TakeForward, false) == Step(n, TakeForward, true)
  {
    var f := n.forward;
    assert forall i :: 0 <= i < |f[1..]| ==> f[1..][i] == f[i + 1];
    if f[0].Initial? { BackAppend(n.rx.local - n.rx.recv, n.back, Ack(f[0].delta)); }
  }

  lemma AckTaken(n: Net, auto: bool)
    requires Conserved(n) && Enabled(n, TakeAck, auto)
    ensures Step(n, TakeAck, auto).Fine? ==> Conserved(Step(n, TakeAck, auto).net)
  {
    var d := n.back[0].delta;
    if Acknowledged(n.rx, d, auto).Changed? {
      var m := n.(back := n.back[1..], rx := n.rx.(local := n.rx.local + d));
      assert Conserved(m);
      Credit(m, ReturnReceived(m.rx, auto));
    }
  }

  /** Frames leave the queues; the queue of WINDOW_UPDATEs is not known to hold one any more. */
  lemma FramePosted(n: Net)
    requires Conserved(n)
    ensures n.urgent != [] ==>
              Conserved(n.(urgent := n.urgent[1..], forward := n.forward + [Initial(n.urgent[0])]))
    ensures n.regular != [] ==> Conserved(Posted(n).(rx := n.rx.(queued := false)))
  {
    if n.urgent != [] { UpdatesAppend(n.forward, Initial(n.urgent[0])); }
    if n.regular != [] { UpdatesAppend(n.forward, Update(n.regular[0])); }
  }

  lemma FrameSent(n: Net, auto: bool)
    requires Conserved(n) && Enabled(n, SendFrame, auto)
    ensures Step(n, SendFrame, auto).Fine? ==> Conserved(Step(n, SendFrame, auto).net)
  {
    hide Conserved;
    ConservedRx(n);
    FramePosted(n);
    if n.urgent == [] && UpdateSent(n.rx, auto).Changed? {
      Credit(Posted(n).(rx := n.rx.(queued := false)), UpdateSent(n.rx, auto));
    }
  }

  lemma ConservedRx(n: Net)
    requires Conserved(n)
    ensures RxFine(n.rx)
  {
  }

  lemma UnreadFree(n: Net, unread: nat)
    requires Conserved(n)
    ensures Conserved(n.(unread := unread))
  {
  }

  lemma LocalCalls(n: Net, op: Op, auto: bool)
    requires Conserved(n) && Enabled(n, op, auto) && (op.Submit? || op.Set? || op.Eat?)
    ensures Step(n, op, auto).Fine? ==> Conserved(Step(n, op, auto).net)
  {
    hide Conserved;
    ConservedRx(n);
    match op
    case Submit(k) => if SubmitUpdate(n.rx, k).Changed? { SubmitCredit(n, k); }
    case Set(size) => if SetLocal(n.rx, size).Changed? { SetCredit(n, size); }
    case Eat(length) =>
      if Consume(n.rx, length).Changed? {
        UnreadFree(n, n.unread - length);
        Credit(n.(unread := n.unread - length), Consume(n.rx, length));
      }
  }

  lemma SubmitCredit(n: Net, k: int)
    requires Conserved(n) && SubmitUpdate(n.rx, k).Changed?
    ensures Conserved(Queue(n, SubmitUpdate(n.rx, k)).net)
  {
    hide Conserved;
    ConservedRx(n);
    AdjustBalance(n.rx, k);
    Credit(n, SubmitUpdate(n.rx, k));
  }

  lemma SetCredit(n: Net, size: int)
    requires Conserved(n) && SetLocal(n.rx, size).Changed?
    ensures Conserved(Queue(n, SetLocal(n.rx, size)).net)
  {
    hide Conserved;
    ConservedRx(n);
    AdjustBalance(n.rx, size - n.rx.local);
    Credit(n, SetLocal(n.rx, size));
  }

  /** Every step conserves credit, and the check on received DATA never fails. */
  lemma StepConserves(n: Net, op: Op, auto: bool)
    requires Conserved(n) && Enabled(n, op, auto)
    ensures Step(n, op, auto).Fine? ==> Conserved(Step(n, op, auto).net)
    ensures op.TakeChunk? ==> Step(n, op, auto).Fine?
  {
    hide Conserved;
    match op
    case SendData(length) => DataSent(n, length);
    case TakeForward => ForwardTaken(n);
    case TakeChunk(length, last) => ChunkAccepted(n, length, last, auto);
    case TakeAck => AckTaken(n, auto);
    case SendFrame => FrameSent(n, auto);
    case ChangeInitial(d) => InitialChanged(n, d);
    case _ => LocalCalls(n, op, auto);
  }

  lemma DataSent(n: Net, length: nat)
    requires Conserved(n) && 1 <= length <= n.send
    ensures Conserved(n.(send := n.send - length, back := n.back + [Data(length)]))
  {
    UpdatesPositive(n.forward);
    TotalPositive(n.regular);
    BackAppend(n.rx.local - n.rx.recv, n.back, Data(length));
  }

  lemma InitialChanged(n: Net, d: int)
    requires Conserved(n)
    ensures Conserved(n.(urgent := n.urgent + [d]))
  {
  }

  // ---- whole runs --------------------------------------------------------------------

  /** A run without an error so far. */
  predicate Runs(n: Net, ops: seq<Op>, auto: bool)
    decreases |ops|
  {
    ops == [] ||
    (Enabled(n, ops[0], auto) && Step(n, ops[0], auto).Fine? && Runs(Step(n, ops[0], auto).net, ops[1..], auto))
  }

  function After(n: Net, ops: seq<Op>, auto: bool): Net
    requires Runs(n, ops, auto)
    decreases |ops|
  {
    if ops == [] then n else After(Step(n, ops[0], auto).net, ops[1..], auto)
  }

  /**
   * Whatever the two endpoints do, credit is conserved at every moment, and received DATA that the sender was
   * allowed to send is never answered with a flow-control error.
   */
  lemma {:induction false} RunConserves(n: Net, ops: seq<Op>, auto: bool)
    requires Conserved(n) && Runs(n, ops, auto)
    ensures Conserved(After(n, ops, auto))
    ensures forall op: Op :: op.TakeChunk? && Enabled(After(n, ops, auto), op, auto) ==>
              Step(After(n, ops, auto), op, auto).Fine?
    decreases |ops|
  {
    hide Conserved, Step, Enabled;
    if ops == [] {
      forall op: Op | op.TakeChunk? && Enabled(n, op, auto) ensures Step(n, op, auto).Fine? {
        StepConserves(n, op, auto);
      }
    } else {
      StepConserves(n, ops[0], auto);
      RunConserves(Step(n, ops[0], auto).net, ops[1..], auto);
    }
  }

  lemma StartConserved(size: int)
    requires 0 <= size <= MAX_WINDOW
    ensures Conserved(Start(size)) && Steady(Start(size)) && Manual(Start(size)) && NoShrink(Start(size))
    ensures Prompt(Start(size), true) && Prompt(Start(size), false)
  {
  }

  // ---- windows whose initial size does not change -----------------------------------------

  /** The bounds of the accounting: a reduction is matched by bytes that count as received. */
  predicate RxSteady(rx: Rx)
  {
    && 0 <= rx.local && rx.recv <= rx.local && 0 <= rx.reduction
    && rx.recv + rx.reduction >= 0 && rx.local + rx.reduction <= MAX_WINDOW
  }

  ghost predicate Steady(n: Net)
  {
    && n.urgent == [] && (forall i :: 0 <= i < |n.forward| ==> n.forward[i].Update?)
    && (forall i :: 0 <= i < |n.back| ==> n.back[i].Data?)
    && 0 <= n.send && RxSteady(n.rx)
  }

  lemma {:induction false} RoomShrinks(room: int, b: seq<Back>)
    requires forall i :: 0 <= i < |b| ==> b[i].Data?
    ensures RoomAfter(room, b) <= room
    decreases |b|
  {
    if b != [] { RoomShrinks(room - b[0].length, b[1..]); }
  }

  /** A WINDOW_UPDATE on its way never overflows the sender's window. */
  lemma UpdateAccepted(n: Net)
    requires Conserved(n) && Steady(n) && n.forward != []
    ensures n.send + n.forward[0].increment <= MAX_WINDOW
  {
    var f := n.forward;
    assert forall i :: 0 <= i < |f[1..]| ==> f[1..][i] == f[i + 1];
    UpdatesPositive(f[1..]);
    TotalPositive(n.regular);
    RoomShrinks(n.rx.local - n.rx.recv, n.back);
  }

  lemma AdjustSteady(rx: Rx, delta: int)
    requires RxSteady(rx)
    ensures Adjust(rx, delta).Changed? ==> RxSteady(Adjust(rx, delta).rx)
  {
  }

  lemma SubmitSteady(rx: Rx, k: int)
    requires RxSteady(rx)
    ensures SubmitUpdate(rx, k).Changed? ==> RxSteady(SubmitUpdate(rx, k).rx)
  {
    AdjustSteady(rx, k);
    hide Adjust;
  }

  lemma SetSteady(rx: Rx, size: int)
    requires RxSteady(rx)
    ensures SetLocal(rx, size).Changed? ==> RxSteady(SetLocal(rx, size).rx)
  {
    AdjustSteady(rx, size - rx.local);
    hide Adjust;
  }

  lemma ConsumeSteady(rx: Rx, n: nat, auto: bool)
    requires RxSteady(rx)
    ensures Consume(rx, n).Changed? ==> RxSteady(Consume(rx, n).rx)
    ensures UpdateSent(rx, auto).Changed? ==> RxSteady(UpdateSent(rx, auto).rx)
    ensures rx.consumed <= MAX_WINDOW ==> UpdateSent(rx, auto).Changed?
  {
  }

  lemma SteadyBack(n: Net, op: Op, auto: bool)
    requires Steady(n) && Conserved(n) && Enabled(n, op, auto) && op.TakeChunk?
    requires Step(n, op, auto).Fine?
    ensures Steady(Step(n, op, auto).net)
  {
    var b := n.back;
    assert forall i :: 0 <= i < |b[1..]| ==> b[1..][i] == b[i + 1];
  }

  lemma SteadyForward(n: Net)
    requires Steady(n) && Conserved(n) && n.forward != []
    ensures Step(n, TakeForward, true).Fine? && Step(n, TakeForward, false).Fine?
    ensures Steady(Step(n, TakeForward, true).net)
  {
    UpdateAccepted(n);
    var f := n.forward;
    assert forall i :: 0 <= i < |f[1..]| ==> f[1..][i] == f[i + 1];
  }

  /**
   * Without changes of the initial size, as for the connection window, one step only can fail: consuming bytes when
   * the count of consumed bytes would leave the range of a window.
   */
  lemma FailsIff(n: Net, op: Op, auto: bool)
    requires Conserved(n) && Steady(n) && Enabled(n, op, auto) && !op.ChangeInitial?
    ensures Step(n, op, auto) == Error <==> op.Eat? && n.rx.consumed > MAX_WINDOW - op.length
    ensures Step(n, op, auto).Fine? ==> Conserved(Step(n, op, auto).net) && Steady(Step(n, op, auto).net)
  {
    hide Conserved;
    StepConserves(n, op, auto);
    ConservedRx(n);
    match op
    case TakeForward => SteadyForward(n);
    case TakeChunk(length, last) => SteadyBack(n, op, auto);
    case Submit(k) => hide RxSteady; SubmitSteady(n.rx, k);
    case Set(size) => hide RxSteady; SetSteady(n.rx, size);
    case Eat(length) => hide RxSteady; ConsumeSteady(n.rx, length, auto);
    case SendFrame => hide RxSteady; ConsumeSteady(n.rx, 0, auto);
    case _ =>
  }

  predicate NoChanges(ops: seq<Op>) { forall i :: 0 <= i < |ops| ==> !ops[i].ChangeInitial? }

  /** So it is in every run: the bounds hold throughout, and nothing but that check ever fails. */
  lemma {:induction false} RunFailsIff(n: Net, ops: seq<Op>, auto: bool)
    requires Conserved(n) && Steady(n) && Runs(n, ops, auto) && NoChanges(ops)
    ensures var m := After(n, ops, auto);
            && Conserved(m) && Steady(m) && 0 <= m.send <= MAX_WINDOW
            && forall op: Op :: Enabled(m, op, auto) && !op.ChangeInitial? ==>
                 (Step(m, op, auto) == Error <==> op.Eat? && m.rx.consumed > MAX_WINDOW - op.length)
    decreases |ops|
  {
    hide Conserved, Steady, Step, Enabled;
    if ops == [] {
      SendBound(n);
      forall op: Op | Enabled(n, op, auto) && !op.ChangeInitial?
        ensures Step(n, op, auto) == Error <==> op.Eat? && n.rx.consumed > MAX_WINDOW - op.length
      {
        FailsIff(n, op, auto);
      }
    } else {
      FailsIff(n, ops[0], auto);
      RunFailsIff(Step(n, ops[0], auto).net, ops[1..], auto);
    }
  }

  lemma SendBound(n: Net)
    requires Conserved(n) && Steady(n)
    ensures 0 <= n.send <= MAX_WINDOW
  {
    UpdatesPositive(n.forward);
    TotalPositive(n.regular);
    RoomShrinks(n.rx.local - n.rx.recv, n.back);
  }

  // ---- consuming does not fail ------------------------------------------------------------------

  /** With manual updates, what was consumed and what is still unread was received and not returned. */
  ghost predicate Manual(n: Net) { n.rx.consumed + n.unread <= n.rx.recv + n.rx.reduction }

  /** Whatever part of the unread bytes is consumed, it is accepted, exactly if all of them are. */
  lemma EatSafeIff(n: Net)
    ensures (forall k: nat :: k <= n.unread ==> Step(n, Eat(k), false).Fine?) <==>
            n.rx.consumed + n.unread <= MAX_WINDOW
  {
    assert Step(n, Eat(n.unread), false).Fine? <==> n.rx.consumed + n.unread <= MAX_WINDOW;
  }

  /** The WINDOW_UPDATE that an accepted increment of the application makes: a reduction is paid from it. */
  function Increment(rx: Rx, k: int): int { k - Min(rx.reduction, Max(0, k - Max(0, rx.recv))) }

  /**
   * An own WINDOW_UPDATE returns bytes that have been consumed, or leaves enough that were received to stand for
   * the unread ones.
   */
  predicate Backed(rx: Rx, unread: nat, k: int)
  {
    k <= 0 || Increment(rx, k) <= rx.consumed || unread <= Max(rx.recv - k, Min(rx.recv, 0)) + rx.reduction
  }

  lemma SubmitManualIff(n: Net, k: int)
    requires Conserved(n) && RxSteady(n.rx) && Manual(n) && SubmitUpdate(n.rx, k).Changed?
    ensures Manual(Step(n, Submit(k), false).net) <==> Backed(n.rx, n.unread, k)
  {
    ConservedRx(n);
    hide Conserved;
  }

  /** So is one that is sent when everything has been consumed, or that is not larger than what has been. */
  lemma BackedWhen(n: Net, k: int)
    requires RxSteady(n.rx) && Manual(n) && (n.unread == 0 || k <= n.rx.consumed)
    ensures Backed(n.rx, n.unread, k)
  {
  }

  /** The step keeps what was consumed and is unread within what was received. */
  predicate Careful(n: Net, op: Op)
  {
    op.Submit? ==> SubmitUpdate(n.rx, op.increment).Refused? || Backed(n.rx, n.unread, op.increment)
  }

  lemma ManualStep(n: Net, op: Op)
    requires Conserved(n) && Steady(n) && Manual(n) && Enabled(n, op, false) && !op.ChangeInitial? && Careful(n, op)
    ensures Step(n, op, false).Fine? && Manual(Step(n, op, false).net)
  {
    FailsIff(n, op, false);
    ConservedRx(n);
    hide Conserved;
    match op
    case Submit(k) => if SubmitUpdate(n.rx, k).Changed? { SubmitManualIff(n, k); }
    case _ =>
  }

  predicate CarefulRun(n: Net, ops: seq<Op>)
    requires Runs(n, ops, false)
    decreases |ops|
  {
    ops == [] || (Careful(n, ops[0]) && CarefulRun(Step(n, ops[0], false).net, ops[1..]))
  }

  /**
   * A run can only stop because an endpoint has nothing to do, never because of an error, if WINDOW_UPDATEs are
   * automatic or those of the application are backed.
   */
  lemma {:induction false} RunNeverFails(n: Net, ops: seq<Op>, auto: bool, op: Op)
    requires Conserved(n) && Steady(n) && Runs(n, ops, auto) && NoChanges(ops)
    requires !auto ==> Manual(n) && CarefulRun(n, ops)
    requires !op.ChangeInitial? && Enabled(After(n, ops, auto), op, auto)
    ensures Step(After(n, ops, auto), op, auto).Fine?
    ensures !auto ==> Manual(After(n, ops, auto))
    decreases |ops|
  {
    hide Conserved, Steady, Manual, Step, Careful;
    if ops == [] {
      FailsIff(n, op, auto);
      if !auto && op.Eat? { EatManual(n, op.length); }
    } else {
      FailsIff(n, ops[0], auto);
      if !auto { ManualStep(n, ops[0]); }
      RunNeverFails(Step(n, ops[0], auto).net, ops[1..], auto, op);
    }
  }

  lemma EatManual(n: Net, k: nat)
    requires Steady(n) && Manual(n) && k <= n.unread
    ensures n.rx.consumed <= MAX_WINDOW - k
  {
  }

  // ---- the books of the receiver ---------------------------------------------------------------

  /** The increment a step puts in the queue. */
  function Returned(n: Net, op: Op, auto: bool): int
    requires Enabled(n, op, auto)
  {
    var c := match op
      case TakeChunk(length, last) => Receive(n.rx, length, auto && !last)
      case TakeAck => Acknowledged(n.rx, n.back[0].delta, auto)
      case Submit(increment) => SubmitUpdate(n.rx, increment)
      case Set(size) => SetLocal(n.rx, size)
      case Eat(length) => Consume(n.rx, length)
      case SendFrame => if n.urgent != [] then Refused else UpdateSent(n.rx, auto)
      case _ => Refused;
    if c.Changed? then c.increment else 0
  }

  lemma StepAccounts(n: Net, op: Op, auto: bool)
    requires Enabled(n, op, auto) && Step(n, op, auto).Fine? && !op.TakeAck?
    ensures var m := Step(n, op, auto).net;
            m.rx.local - m.rx.recv
            == n.rx.local - n.rx.recv + Returned(n, op, auto) - (if op.TakeChunk? then op.length else 0)
  {
    match op
    case Submit(k) => AdjustBalance(n.rx, k);
    case Set(size) => AdjustBalance(n.rx, size - n.rx.local);
    case _ =>
  }

  function AllReturned(n: Net, ops: seq<Op>, auto: bool): int
    requires Runs(n, ops, auto)
    decreases |ops|
  {
    if ops == [] then 0 else Returned(n, ops[0], auto) + AllReturned(Step(n, ops[0], auto).net, ops[1..], auto)
  }

  function AllReceived(ops: seq<Op>): int
  {
    if ops == [] then 0 else (if ops[0].TakeChunk? then ops[0].length else 0) + AllReceived(ops[1..])
  }

  /** Over a run: the size less the bytes held is the start plus increments queued minus bytes received. */
  lemma {:induction false} RunAccounts(n: Net, ops: seq<Op>, auto: bool)
    requires Runs(n, ops, auto) && forall i :: 0 <= i < |ops| ==> !ops[i].TakeAck?
    ensures var m := After(n, ops, auto);
            m.rx.local - m.rx.recv == n.rx.local - n.rx.recv + AllReturned(n, ops, auto) - AllReceived(ops)
    decreases |ops|
  {
    hide Step, Enabled, Returned;
    if ops != [] {
      StepAccounts(n, ops[0], auto);
      RunAccounts(Step(n, ops[0], auto).net, ops[1..], auto);
    }
  }

  // ---- the sender is not left without credit -------------------------------------------------------

  /** What the receiver would return if no WINDOW_UPDATE were queued. */
  function Due(rx: Rx, auto: bool): int { if auto then rx.recv else Min(rx.consumed, rx.recv) }

  /** The receiver does not sit on half of its window with nothing queued. */
  predicate Prompt(n: Net, auto: bool) { n.rx.queued || !ShouldSend(n.rx.local, Due(n.rx, auto)) }

  /** Both the size and the bytes held may change by `d` without a WINDOW_UPDATE. */
  predicate Quiet(rx: Rx, d: int, auto: bool)
  {
    rx.queued || !ShouldSend(rx.local + d, Due(rx.(recv := rx.recv + d), auto))
  }

  /**
   * Where the receiver does not look whether a WINDOW_UPDATE is due: after a change of the size by the application
   * that is paid from an earlier reduction or lowers it, at the end of a stream, and with manual updates whenever
   * nothing is consumed.
   */
  predicate KeepsPrompt(n: Net, op: Op, auto: bool)
    requires Enabled(n, op, auto)
  {
    match op
    case Submit(k) =>
      SubmitUpdate(n.rx, k).Refused? || (k > 0 && (n.rx.recv > 0 || k > n.rx.reduction)) || Quiet(n.rx, k, auto)
    case Set(size) =>
      var d := size - n.rx.local;
      SetLocal(n.rx, size).Refused? || d > n.rx.reduction || Quiet(n.rx, d, auto)
    case TakeAck => auto || n.rx.queued || !ShouldSend(n.rx.local + n.back[0].delta, Due(n.rx, auto))
    case TakeChunk(length, last) =>
      (auto && !last) || n.rx.queued || !ShouldSend(n.rx.local, Due(n.rx.(recv := n.rx.recv + length), auto))
    case _ => true
  }

  /** Exactly those steps leave the receiver sitting on a due WINDOW_UPDATE. */
  lemma PromptIff(n: Net, op: Op, auto: bool)
    requires RxFine(n.rx) && Prompt(n, auto) && Enabled(n, op, auto) && Step(n, op, auto).Fine?
    ensures Prompt(Step(n, op, auto).net, auto) <==> KeepsPrompt(n, op, auto)
  {
    match op
    case Submit(k) => SubmitPromptIff(n, k, auto);
    case Set(size) => SetPromptIff(n, size, auto);
    case _ =>
  }

  lemma SubmitPromptIff(n: Net, k: int, auto: bool)
    requires RxFine(n.rx) && Prompt(n, auto)
    ensures Prompt(Step(n, Submit(k), auto).net, auto) <==> KeepsPrompt(n, Submit(k), auto)
  {
  }

  lemma SetPromptIff(n: Net, size: int, auto: bool)
    requires RxFine(n.rx) && Prompt(n, auto)
    ensures Prompt(Step(n, Set(size), auto).net, auto) <==> KeepsPrompt(n, Set(size), auto)
  {
  }

  /** With automatic updates, only raising the size can do it, if all of the raise is paid from a reduction. */
  lemma OnlyRaises(n: Net, op: Op)
    requires RxFine(n.rx) && Prompt(n, true) && Enabled(n, op, true) && (op.TakeChunk? ==> !op.last)
    requires op.Submit? ==> op.increment <= 0
    requires op.Set? ==> op.size <= n.rx.local
    ensures KeepsPrompt(n, op, true)
  {
  }

  predicate KeepsPromptRun(n: Net, ops: seq<Op>, auto: bool)
    requires Runs(n, ops, auto)
    decreases |ops|
  {
    ops == [] ||
    (KeepsPrompt(n, ops[0], auto) && KeepsPromptRun(Step(n, ops[0], auto).net, ops[1..], auto))
  }

  lemma {:induction false} PromptRun(n: Net, ops: seq<Op>, auto: bool)
    requires Conserved(n) && Prompt(n, auto) && Runs(n, ops, auto) && KeepsPromptRun(n, ops, auto)
    ensures Conserved(After(n, ops, auto)) && Prompt(After(n, ops, auto), auto)
    decreases |ops|
  {
    hide Conserved, Prompt, KeepsPrompt, Step, Enabled;
    if ops != [] {
      ConservedRx(n);
      PromptIff(n, ops[0], auto);
      StepConserves(n, ops[0], auto);
      PromptRun(Step(n, ops[0], auto).net, ops[1..], auto);
    }
  }

  predicate Idle(n: Net) { n.urgent == [] && n.regular == [] && n.forward == [] && n.back == [] }

  /**
   * When nothing is queued or on its way and the application has consumed what it got, the sender has more than half
   * of the window: the transfer cannot get stuck.
   */
  lemma NoStall(n: Net, ops: seq<Op>, auto: bool)
    requires Conserved(n) && Prompt(n, auto) && Runs(n, ops, auto) && KeepsPromptRun(n, ops, auto)
    ensures var m := After(n, ops, auto);
            Idle(m) && m.rx.local > 0 && (auto || m.rx.consumed >= m.rx.recv) ==> 2 * m.send > m.rx.local
  {
    PromptRun(n, ops, auto);
    IdleCredit(After(n, ops, auto), auto);
  }

  lemma IdleCredit(n: Net, auto: bool)
    requires Conserved(n) && Prompt(n, auto)
    ensures Idle(n) && n.rx.local > 0 && (auto || n.rx.consumed >= n.rx.recv) ==> 2 * n.send > n.rx.local
  {
  }

  // ---- concrete runs ---------------------------------------------------------------------------

  /** One step of a concrete run. */
  lemma RunFrom(n: Net, ops: seq<Op>, i: nat, auto: bool, m: Net)
    requires i < |ops| && Enabled(n, ops[i], auto) && Step(n, ops[i], auto) == Fine(m) && Runs(m, ops[i + 1..], auto)
    ensures Runs(n, ops[i..], auto) && After(n, ops[i..], auto) == After(m, ops[i + 1..], auto)
  {
    assert ops[i..][1..] == ops[i + 1..];
  }

  lemma RunEnd(n: Net, ops: seq<Op>, auto: bool)
    ensures Runs(n, ops[|ops|..], auto) && After(n, ops[|ops|..], auto) == n
    ensures ops[0..] == ops
  {
  }

  /** The states that a run goes through. */
  ghost predicate Through(ns: seq<Net>, ops: seq<Op>, auto: bool)
  {
    && |ns| == |ops| + 1
    && forall i :: 0 <= i < |ops| ==> Enabled(ns[i], ops[i], auto) && Step(ns[i], ops[i], auto) == Fine(ns[i + 1])
  }

  lemma {:induction false} ThroughRuns(ns: seq<Net>, ops: seq<Op>, auto: bool, i: nat)
    requires Through(ns, ops, auto) && i <= |ops|
    ensures Runs(ns[i], ops[i..], auto) && After(ns[i], ops[i..], auto) == ns[|ops|]
    decreases |ops| - i
  {
    hide Step, Enabled;
    if i == |ops| {
      RunEnd(ns[i], ops, auto);
    } else {
      ThroughRuns(ns, ops, auto, i + 1);
      RunFrom(ns[i], ops, i, auto, ns[i + 1]);
    }
  }

  lemma RunReaches(ns: seq<Net>, ops: seq<Op>, auto: bool)
    requires Through(ns, ops, auto)
    ensures Runs(ns[0], ops, auto) && After(ns[0], ops, auto) == ns[|ops|]
  {
    hide Through;
    ThroughRuns(ns, ops, auto, 0);
    assert ops[0..] == ops;
  }

  // ---- raising the size may leave the sender stuck ----------------------------------------------

  /** The size is lowered to 0, the peer uses up its credit, and the size is raised again in either way. */
  function StallRun(raise: Op): seq<Op>
  {
    [SendData(30000), TakeChunk(30000, false), Set(0), SendData(35535), TakeChunk(35535, false), raise]
  }

  const STALLED := Net(0, [], [], [], [], Rx(65535, 65535, 0, 0, false), 65535)

  function StallStates(): seq<Net>
  {
    [Start(65535),
     Net(35535, [], [], [], [Data(30000)], Rx(65535, 0, 0, 0, false), 0),
     Net(35535, [], [], [], [], Rx(65535, 30000, 0, 0, false), 30000),
     Net(35535, [], [], [], [], Rx(0, -35535, 65535, 0, false), 30000),
     Net(0, [], [], [], [Data(35535)], Rx(0, -35535, 65535, 0, false), 30000),
     Net(0, [], [], [], [], Rx(0, 0, 65535, 0, false), 65535),
     STALLED]
  }

  lemma StallStep(i: nat, raise: Op)
    requires i < 6 && raise in {Set(65535), Submit(65535)}
    ensures Enabled(StallStates()[i], StallRun(raise)[i], true)
    ensures Step(StallStates()[i], StallRun(raise)[i], true) == Fine(StallStates()[i + 1])
  {
  }

  /**
   * The receiver then owes the sender a full window, has no WINDOW_UPDATE in its queue, and neither side can take
   * another step unless the application changes the window once more.
   */
  lemma RestoreStalls(raise: Op)
    requires raise in {Set(65535), Submit(65535)}
    ensures Runs(Start(65535), StallRun(raise), true) && After(Start(65535), StallRun(raise), true) == STALLED
    ensures forall op :: Enabled(STALLED, op, true) ==> op.Set? || op.Submit? || op.ChangeInitial?
  {
    hide Runs, After, Step, Enabled;
    var ns, ops := StallStates(), StallRun(raise);
    forall i | 0 <= i < |ops|
      ensures Enabled(ns[i], ops[i], true) && Step(ns[i], ops[i], true) == Fine(ns[i + 1])
    {
      StallStep(i, raise);
    }
    RunReaches(ns, ops, true);
    StalledEnds();
  }

  lemma StalledEnds()
    ensures forall op :: Enabled(STALLED, op, true) ==> op.Set? || op.Submit? || op.ChangeInitial?
  {
  }

  // ---- where an error is raised -------------------------------------------------------------------

  /** The initial size of a stream window never shrinks. */
  ghost predicate NoShrink(n: Net)
  {
    && n.rx.recv <= n.rx.local
    && (forall i :: 0 <= i < |n.urgent| ==> n.urgent[i] >= 0)
    && (forall i :: 0 <= i < |n.forward| && n.forward[i].Initial? ==> n.forward[i].delta >= 0)
    && (forall i :: 0 <= i < |n.back| && n.back[i].Ack? ==> n.back[i].delta >= 0)
  }

  /** When a WINDOW_UPDATE has been sent, the peer is blamed exactly if more was received than is advertised now. */
  lemma SentFailsIff(n: Net)
    requires n.rx.local <= MAX_WINDOW && Enabled(n, SendFrame, true)
    ensures Step(n, SendFrame, true) == Error <==> n.urgent == [] && n.rx.recv > n.rx.local
  {
  }

  lemma RxNoShrink(rx: Rx, k: int, n: nat, auto: bool)
    requires RxFine(rx) && rx.recv <= rx.local
    ensures SubmitUpdate(rx, k).Changed? ==> SubmitUpdate(rx, k).rx.recv <= SubmitUpdate(rx, k).rx.local
    ensures SetLocal(rx, k).Changed? ==> SetLocal(rx, k).rx.recv <= SetLocal(rx, k).rx.local
    ensures Consume(rx, n).Changed? ==> Consume(rx, n).rx.recv <= Consume(rx, n).rx.local
    ensures UpdateSent(rx, auto).Changed? ==> UpdateSent(rx, auto).rx.recv <= UpdateSent(rx, auto).rx.local
  {
    AdjustBalance(rx, k);
    AdjustBalance(rx, k - rx.local);
    hide Adjust;
  }

  lemma NoShrinkStep(n: Net, op: Op, auto: bool)
    requires RxFine(n.rx) && NoShrink(n) && Enabled(n, op, auto) && (op.ChangeInitial? ==> op.delta >= 0)
    requires Step(n, op, auto).Fine?
    ensures NoShrink(Step(n, op, auto).net)
  {
    hide SubmitUpdate, SetLocal, Consume, UpdateSent;
    var u, f, b := n.urgent, n.forward, n.back;
    match op
    case Submit(k) => RxNoShrink(n.rx, k, 0, auto);
    case Set(size) => RxNoShrink(n.rx, size, 0, auto);
    case Eat(length) => RxNoShrink(n.rx, 0, length, auto);
    case SendFrame =>
      RxNoShrink(n.rx, 0, 0, auto);
      if u != [] { assert forall i :: 0 <= i < |u[1..]| ==> u[1..][i] == u[i + 1]; }
    case TakeForward => assert forall i :: 0 <= i < |f[1..]| ==> f[1..][i] == f[i + 1];
    case _ => if b != [] { assert forall i :: 0 <= i < |b[1..]| ==> b[1..][i] == b[i + 1]; }
  }

  /** If the initial size never shrinks, the peer is never blamed that way. */
  lemma {:induction false} NoShrinkRun(n: Net, ops: seq<Op>)
    requires Conserved(n) && NoShrink(n) && Runs(n, ops, true)
    requires forall i :: 0 <= i < |ops| && ops[i].ChangeInitial? ==> ops[i].delta >= 0
    requires Enabled(After(n, ops, true), SendFrame, true)
    ensures Step(After(n, ops, true), SendFrame, true).Fine?
    decreases |ops|
  {
    if ops == [] {
      ConservedRx(n);
      SentFailsIff(n);
    } else {
      hide Conserved, NoShrink, Step;
      ConservedRx(n);
      NoShrinkStep(n, ops[0], true);
      StepConserves(n, ops[0], true);
      NoShrinkRun(Step(n, ops[0], true).net, ops[1..]);
    }
  }

  const SHRINK_RUN := [ChangeInitial(-65535), SendFrame, SendData(40000), SendData(20000), TakeForward,
                       TakeChunk(40000, false), TakeChunk(20000, false), TakeAck]

  const SHRUNK := Net(-60000, [], [40000], [], [], Rx(0, 20000, 0, 0, true), 60000)

  function ShrinkStates(): seq<Net>
  {
    var rx := Rx(65535, 0, 0, 0, false);
    var held := Rx(65535, 20000, 0, 0, true);
    [Start(65535),
     Net(65535, [-65535], [], [], [], rx, 0),
     Net(65535, [], [], [Initial(-65535)], [], rx, 0),
     Net(25535, [], [], [Initial(-65535)], [Data(40000)], rx, 0),
     Net(5535, [], [], [Initial(-65535)], [Data(40000), Data(20000)], rx, 0),
     Net(-60000, [], [], [], [Data(40000), Data(20000), Ack(-65535)], rx, 0),
     Net(-60000, [], [40000], [], [Data(20000), Ack(-65535)], held.(recv := 0), 40000),
     Net(-60000, [], [40000], [], [Ack(-65535)], held, 60000),
     SHRUNK]
  }

  lemma ShrinkStep(i: nat)
    requires i < 8
    ensures Enabled(ShrinkStates()[i], SHRINK_RUN[i], true)
    ensures Step(ShrinkStates()[i], SHRINK_RUN[i], true) == Fine(ShrinkStates()[i + 1])
  {
  }

  /**
   * A stream whose initial window shrinks: the peer sends 60000 bytes within its window, the receiver has a
   * WINDOW_UPDATE in its queue when the new size is acknowledged, and blames the peer once that has been sent.
   */
  lemma ShrinkingFails()
    ensures Runs(Start(65535), SHRINK_RUN, true) && After(Start(65535), SHRINK_RUN, true) == SHRUNK
    ensures Step(SHRUNK, SendFrame, true) == Error
  {
    SentFailsIff(SHRUNK);
    hide Runs, After, Step, Enabled;
    var ns, ops := ShrinkStates(), SHRINK_RUN;
    forall i | 0 <= i < |ops|
      ensures Enabled(ns[i], ops[i], true) && Step(ns[i], ops[i], true) == Fine(ns[i + 1])
    {
      ShrinkStep(i);
    }
    RunReaches(ns, ops, true);
  }

  const HUGE := 0x4000_0000
  const MANUAL_RUN := [SendData(HUGE), TakeChunk(HUGE, false), Submit(HUGE), Eat(HUGE), SendFrame, TakeForward,
                       SendData(HUGE), TakeChunk(HUGE, false)]

  const UNBACKED := Net(0, [], [], [], [], Rx(HUGE, HUGE, 0, HUGE, false), HUGE)

  function ManualStates(): seq<Net>
  {
    var rx := Rx(HUGE, 0, 0, 0, false);
    var eaten := Rx(HUGE, 0, 0, HUGE, false);
    [Start(HUGE),
     Net(0, [], [], [], [Data(HUGE)], rx, 0),
     Net(0, [], [], [], [], rx.(recv := HUGE), HUGE),
     Net(0, [], [HUGE], [], [], rx.(queued := true), HUGE),
     Net(0, [], [HUGE], [], [], eaten.(queued := true), 0),
     Net(0, [], [], [Update(HUGE)], [], eaten, 0),
     Net(HUGE, [], [], [], [], eaten, 0),
     Net(0, [], [], [], [Data(HUGE)], eaten, 0),
     UNBACKED]
  }

  lemma ManualEarly(i: nat)
    requires i < 4
    ensures Enabled(ManualStates()[i], MANUAL_RUN[i], false)
    ensures Step(ManualStates()[i], MANUAL_RUN[i], false) == Fine(ManualStates()[i + 1])
  {
    if i < 2 { assert i == 0 || i == 1; } else { assert i == 2 || i == 3; }
  }

  lemma ManualLate(i: nat)
    requires 4 <= i < 8
    ensures Enabled(ManualStates()[i], MANUAL_RUN[i], false)
    ensures Step(ManualStates()[i], MANUAL_RUN[i], false) == Fine(ManualStates()[i + 1])
  {
    if i < 6 { assert i == 4 || i == 5; } else { assert i == 6 || i == 7; }
  }

  /**
   * Manual updates: an application that returns 2^30 bytes with its own WINDOW_UPDATE before it consumes them
   * is later refused when it consumes as many again.
   */
  lemma ManualFails()
    ensures Runs(Start(HUGE), MANUAL_RUN, false) && After(Start(HUGE), MANUAL_RUN, false) == UNBACKED
    ensures Enabled(UNBACKED, Eat(HUGE), false) && Step(UNBACKED, Eat(HUGE), false) == Error
    ensures !Careful(ManualStates()[2], MANUAL_RUN[2])
  {
    hide Runs, After;
    var ns, ops := ManualStates(), MANUAL_RUN;
    assert Enabled(UNBACKED, Eat(HUGE), false) && Step(UNBACKED, Eat(HUGE), false) == Error;
    hide Step, Enabled;
    forall i | 0 <= i < |ops|
      ensures Enabled(ns[i], ops[i], false) && Step(ns[i], ops[i], false) == Fine(ns[i + 1])
    {
      if i < 4 { ManualEarly(i); } else { ManualLate(i); }
    }
    RunReaches(ns, ops, false);
  }
}
