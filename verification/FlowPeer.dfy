/**
 * Flow control against any peer: the endpoint that sends DATA need not keep to its window.  Whatever it sends, the
 * receiver never takes in more than it has advertised, and says so at the first byte too many.
 */
module FlowPeer {
  import opened Bytes
  import opened FlowControl

  /** The peer may send DATA of any length; everything else is as before. */
  predicate Permitted(n: Net, op: Op, auto: bool) { if op.SendData? then op.length >= 1 else Enabled(n, op, auto) }

  function Act(n: Net, op: Op, auto: bool): Outcome
    requires Permitted(n, op, auto)
  {
    if op.SendData? then Fine(n.(send := n.send - op.length, back := n.back + [Data(op.length)])) else Step(n, op, auto)
  }

  /** A peer that keeps to its window is one of them. */
  lemma ObedientPeer(n: Net, op: Op, auto: bool)
    requires Enabled(n, op, auto)
    ensures Permitted(n, op, auto) && Act(n, op, auto) == Step(n, op, auto)
  {
  }

  /** DATA is answered with a flow-control error exactly if it goes beyond the window. */
  lemma ChunkErrorIff(n: Net, length: nat, last: bool, auto: bool)
    requires Permitted(n, TakeChunk(length, last), auto)
    ensures Act(n, TakeChunk(length, last), auto) == Error <==>
            length > n.rx.local - n.rx.recv || n.rx.recv + length > MAX_WINDOW
  {
    ReceiveIff(n.rx, length, auto && !last);
  }

  /** A frame that ignores the window is refused as soon as the part of it that has arrived is too long. */
  lemma OverrunRefused(n: Net, length: nat, part: nat, last: bool, auto: bool)
    requires n.back == [] && n.rx.local - n.rx.recv < part <= length && part >= 1
    ensures Permitted(n, SendData(length), auto) && Act(n, SendData(length), auto).Fine?
    ensures var m := Act(n, SendData(length), auto).net;
            Permitted(m, TakeChunk(part, last), auto) && Act(m, TakeChunk(part, last), auto) == Error
  {
    var m := n.(send := n.send - length, back := n.back + [Data(length)]);
    assert m.back[0] == Data(length);
    ChunkErrorIff(m, part, last, auto);
  }

  // ---- runs ----------------------------------------------------------------------------------

  predicate Acts(n: Net, ops: seq<Op>, auto: bool)
    decreases |ops|
  {
    ops == [] ||
    (Permitted(n, ops[0], auto) && Act(n, ops[0], auto).Fine? && Acts(Act(n, ops[0], auto).net, ops[1..], auto))
  }

  function Reached(n: Net, ops: seq<Op>, auto: bool): Net
    requires Acts(n, ops, auto)
    decreases |ops|
  {
    if ops == [] then n else Reached(Act(n, ops[0], auto).net, ops[1..], auto)
  }

  /** What an acknowledged change of the initial size adds to the window. */
  function Gained(n: Net, op: Op): int
  {
    if op.TakeAck? && n.back != [] && n.back[0].Ack? then n.back[0].delta else 0
  }

  function Granted(n: Net, op: Op, auto: bool): int
    requires Permitted(n, op, auto)
  {
    (if op.SendData? then 0 else Returned(n, op, auto)) + Gained(n, op)
  }

  function AllGranted(n: Net, ops: seq<Op>, auto: bool): int
    requires Acts(n, ops, auto)
    decreases |ops|
  {
    if ops == [] then 0 else Granted(n, ops[0], auto) + AllGranted(Act(n, ops[0], auto).net, ops[1..], auto)
  }

  lemma ActFine(n: Net, op: Op, auto: bool)
    requires RxFine(n.rx) && Permitted(n, op, auto) && Act(n, op, auto).Fine?
    ensures RxFine(Act(n, op, auto).net.rx)
  {
    match op
    case Submit(k) => AdjustBalance(n.rx, k);
    case Set(size) => SetExact(n.rx, size);
    case _ =>
  }

  lemma ActAccounts(n: Net, op: Op, auto: bool)
    requires Permitted(n, op, auto) && Act(n, op, auto).Fine?
    ensures var m := Act(n, op, auto).net;
            m.rx.local - m.rx.recv
            == n.rx.local - n.rx.recv + Granted(n, op, auto) - (if op.TakeChunk? then op.length else 0)
  {
    hide Adjust, Increase, Consume, SubmitUpdate, SetLocal, ReturnReceived, ShouldSend;
    if op.TakeAck? {
      ReturnBalance(n.rx.(local := n.rx.local + n.back[0].delta), auto);
    } else if !op.SendData? {
      StepAccounts(n, op, auto);
    }
  }

  lemma ReturnBalance(rx: Rx, send: bool)
    ensures var c := ReturnReceived(rx, send);
            c.Changed? && c.rx.local - c.rx.recv == rx.local - rx.recv + c.increment
  {
  }

  lemma ActNoShrink(n: Net, op: Op, auto: bool)
    requires RxFine(n.rx) && NoShrink(n) && Permitted(n, op, auto) && (op.ChangeInitial? ==> op.delta >= 0)
    requires Act(n, op, auto).Fine?
    ensures NoShrink(Act(n, op, auto).net)
  {
    if op.SendData? {
      var b := n.back + [Data(op.length)];
      assert forall i :: 0 <= i < |b| && b[i].Ack? ==> i < |n.back| && b[i] == n.back[i];
    } else {
      hide Step, NoShrink;
      NoShrinkStep(n, op, auto);
    }
  }

  /**
   * Whatever the peer sends, the receiver never holds more than it advertises as long as no initial size shrinks, and
   * what it takes in is what it granted, at the start and since, less what is left.
   */
  lemma {:induction false} NeverBeyond(n: Net, ops: seq<Op>, auto: bool)
    requires RxFine(n.rx) && NoShrink(n) && Acts(n, ops, auto)
    requires forall i :: 0 <= i < |ops| && ops[i].ChangeInitial? ==> ops[i].delta >= 0
    ensures var m := Reached(n, ops, auto);
            && m.rx.recv <= m.rx.local
            && AllReceived(ops) + (m.rx.local - m.rx.recv) == n.rx.local - n.rx.recv + AllGranted(n, ops, auto)
    decreases |ops|
  {
    hide Act, Permitted, Granted, RxFine;
    if ops != [] {
      ActFine(n, ops[0], auto);
      ActNoShrink(n, ops[0], auto);
      ActAccounts(n, ops[0], auto);
      NeverBeyond(Act(n, ops[0], auto).net, ops[1..], auto);
    }
  }

  /** From the start: no more is taken in than the initial size and everything granted since. */
  lemma NeverBeyondStart(size: int, ops: seq<Op>, auto: bool)
    requires 0 <= size <= MAX_WINDOW && Acts(Start(size), ops, auto)
    requires forall i :: 0 <= i < |ops| && ops[i].ChangeInitial? ==> ops[i].delta >= 0
    ensures AllReceived(ops) <= size + AllGranted(Start(size), ops, auto)
    ensures Reached(Start(size), ops, auto).rx.recv <= Reached(Start(size), ops, auto).rx.local
  {
    NeverBeyond(Start(size), ops, auto);
  }

  /** What a frame gives the sender. */
  function Amount(f: Forward): int
  {
    match f
    case Update(k) => k
    case Initial(d) => d
  }

  /**
   * A frame takes the sender into an error exactly if the window would pass 2^31-1, or fall below 32 bits, as only a
   * new initial size can make it; otherwise the window changes by just that, and only an initial size is acknowledged.
   */
  lemma ForwardErrorIff(n: Net, auto: bool)
    requires n.forward != [] && (n.forward[0].Update? ==> n.forward[0].increment >= 0)
    requires INT32_MIN <= n.send
    ensures var o, send := Act(n, TakeForward, auto), n.send + Amount(n.forward[0]);
            && (o == Error <==> send > MAX_WINDOW || send < INT32_MIN)
            && (o.Fine? ==>
                  && o.net.send == send && o.net.rx == n.rx && o.net.forward == n.forward[1..]
                  && o.net.back == n.back + (if n.forward[0].Initial? then [Ack(n.forward[0].delta)] else []))
  {
  }

  /** The receiver follows the acknowledgement under the same condition, and advertises as much more as it changed. */
  lemma AcknowledgedIff(rx: Rx, delta: int, auto: bool)
    ensures var c, local := Acknowledged(rx, delta, auto), rx.local + delta;
            && (c.Refused? <==> local > MAX_WINDOW || local < INT32_MIN)
            && (c.Changed? ==>
                  c.rx.local == local && c.rx.local - c.rx.recv == rx.local - rx.recv + delta + c.increment)
  {
    if Acknowledged(rx, delta, auto).Changed? { ReturnBalance(rx.(local := rx.local + delta), auto); }
  }
}
