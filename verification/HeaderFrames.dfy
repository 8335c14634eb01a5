/**
 * A header block cut into one HEADERS frame and CONTINUATION frames (lib/nghttp2_frame.c), and the reading of
 * such frames octet by octet (nghttp2_session_mem_recv of lib/nghttp2_session.c).
 */
module HeaderFrames {
  import opened Bytes
  import opened Buffers
  import opened FrameHeader

  // ---- the sending side --------------------------------------------------------------

  /** The header of frame `i`: only the last frame has END_HEADERS. */
  function FrameHd(payloads: seq<Bytes>, i: nat, flags: byte, streamId: nat): Hd
    requires i < |payloads|
  {
    Hd(|payloads[i]|, if i == 0 then HEADERS else CONTINUATION,
       if i == 0 then (if |payloads| > 1 then ClearEndHeaders(flags) else flags)
       else if i + 1 == |payloads| then END_HEADERS else 0,
       streamId)
  }

  predicate Sendable(payloads: seq<Bytes>, streamId: nat)
  {
    streamId < 0x8000_0000 && forall i :: 0 <= i < |payloads| ==> |payloads[i]| <= MAX_PAYLOAD
  }

  /** The octets of the frames from number `i` on. */
  function Wire(payloads: seq<Bytes>, i: nat, flags: byte, streamId: nat): Bytes
    requires i <= |payloads| && Sendable(payloads, streamId)
    decreases |payloads| - i
  {
    if i == |payloads| then []
    else PackHd(FrameHd(payloads, i, flags, streamId)) + (payloads[i] + Wire(payloads, i + 1, flags, streamId))
  }

  function PriField(pri: Option<PriSpec>): Bytes
    requires pri.Some? ==> ValidPri(pri.value)
  {
    if pri.Some? then PackPri(pri.value) else []
  }

  /** The first payload starts with the priority field, if there is one. */
  function Payloads(pieces: seq<Bytes>, pri: Option<PriSpec>): seq<Bytes>
    requires pieces != [] && (pri.Some? ==> ValidPri(pri.value))
  {
    pieces[0 := PriField(pri) + pieces[0]]
  }

  function Zeros(n: nat): Bytes { seq(n, _ => 0) }

  /** `pad` octets more: the length of the padding in front, and the padding behind. */
  function Padded(payload: Bytes, pad: nat): Bytes
    requires pad <= MAX_PADDING
  {
    if pad == 0 then payload else [pad - 1] + payload + Zeros(pad - 1)
  }

  /** Section 6.2 of RFC 7540: the padding is zero, and its length is told in front. */
  lemma PaddingIsZero(payload: Bytes, pad: nat)
    requires 1 <= pad <= MAX_PADDING
    ensures var p := Padded(payload, pad);
            && |p| == |payload| + pad && p[0] == pad - 1 && p[1..|payload| + 1] == payload
            && forall i :: |payload| + 1 <= i < |p| ==> p[i] == 0
  {
    assert Padded(payload, pad)[1..|payload| + 1] == payload;
  }

  const MAX_PADDING := 256

  function PadFirst(payloads: seq<Bytes>, pad: nat): seq<Bytes>
    requires payloads != [] && pad <= MAX_PADDING
  {
    payloads[0 := Padded(payloads[0], pad)]
  }

  // ---- the receiving side ------------------------------------------------------------

  datatype Phase = InHead | InPadLength | InPriority | InBlock | InContinuation | Done | Failed

  /**
   * `sbuf` collects a fixed-size field; `left` octets of the payload are to come, of which the last `pad` are
   * padding; `block` is the header block.
   */
  datatype Reader = Reader(phase: Phase, sbuf: Bytes, left: nat, pad: nat, flags: byte, streamId: nat,
                           pri: Option<PriSpec>, block: Bytes)

  const FRESH := Reader(InHead, [], 0, 0, 0, 0, None, [])

  /** What follows when the payload of a frame may be finished. */
  function Payload(r: Reader): Reader
  {
    if r.left > 0 then r.(phase := InBlock)
    else if Bit(r.flags, END_HEADERS) then r.(phase := Done, pad := 0)
    else r.(phase := InContinuation, sbuf := [], pad := 0)
  }

  /** Where the priority field comes next if there is one. */
  function Unpadded(r: Reader): Reader
  {
    if !Bit(r.flags, PRIORITY) then Payload(r)
    else if r.left < PRIORITY_LENGTH then r.(phase := Failed)
    else r.(phase := InPriority)
  }

  /** The limit on the length is local_settings.max_frame_size, left at its default; CONTINUATION is not held to it. */
  function HeadRead(r: Reader, hd: Hd): Reader
  {
    var s := r.(sbuf := [], left := hd.length, flags := Masked(hd.flags), streamId := hd.streamId);
    if hd.length > MAX_PAYLOAD || hd.kind != HEADERS || (Bit(s.flags, PADDED) && hd.length < 1)
    then r.(phase := Failed, sbuf := [])
    else if Bit(s.flags, PADDED) then s.(phase := InPadLength)
    else Unpadded(s)
  }

  /** inbound_frame_compute_pad: the padding and the priority field must fit in the payload. */
  function PadRead(r: Reader, b: byte): Reader
    requires r.left > 0
  {
    var s := r.(left := r.left - 1, pad := b as int);
    if s.pad + (if Bit(r.flags, PRIORITY) then PRIORITY_LENGTH else 0) > s.left then s.(phase := Failed)
    else Unpadded(s)
  }

  function ContinuationRead(r: Reader, hd: Hd): Reader
  {
    if hd.kind != CONTINUATION || hd.streamId != r.streamId then r.(phase := Failed, sbuf := [])
    else
      Payload(r.(sbuf := [], left := hd.length, pad := 0,
                 flags := if Bit(hd.flags, END_HEADERS) then SetEndHeaders(r.flags) else r.flags))
  }

  function Octet(r: Reader, b: byte): Reader
  {
    match r.phase
    case InHead =>
      if |r.sbuf| + 1 < HEADER_LENGTH then r.(sbuf := r.sbuf + [b])
      else if |r.sbuf| + 1 == HEADER_LENGTH then HeadRead(r, UnpackHd(r.sbuf + [b])) else r
    case InPadLength => if r.left == 0 then r else PadRead(r, b)
    case InPriority =>
      if r.left == 0 then r
      else if |r.sbuf| + 1 < PRIORITY_LENGTH then r.(sbuf := r.sbuf + [b], left := r.left - 1)
      else if |r.sbuf| + 1 == PRIORITY_LENGTH
      then Payload(r.(sbuf := [], left := r.left - 1, pri := Some(UnpackPri(r.sbuf + [b])))) else r
    case InBlock =>
      if r.left == 0 then r
      else Payload(r.(left := r.left - 1, block := if r.left > r.pad then r.block + [b] else r.block))
    case InContinuation =>
      if |r.sbuf| + 1 < HEADER_LENGTH then r.(sbuf := r.sbuf + [b])
      else if |r.sbuf| + 1 == HEADER_LENGTH then ContinuationRead(r, UnpackHd(r.sbuf + [b])) else r
    case Done => r
    case Failed => r
  }

  function Read(r: Reader, input: Bytes): Reader
    decreases |input|
  {
    if input == [] then r else Read(Octet(r, input[0]), input[1..])
  }

  /** How the octets are cut by the transport does not matter. */
  lemma {:induction false} ReadAppend(r: Reader, a: Bytes, b: Bytes)
    ensures Read(r, a + b) == Read(Read(r, a), b)
    decreases |a|
  {
    if a == [] {
      assert a + b == b;
    } else {
      assert (a + b)[0] == a[0] && (a + b)[1..] == a[1..] + b;
      ReadAppend(Octet(r, a[0]), a[1..], b);
    }
  }

  /** Octets that only go to the field being collected. */
  lemma {:induction false} Collect(r: Reader, x: Bytes)
    requires r.phase == InHead || r.phase == InContinuation
    requires |r.sbuf| + |x| < HEADER_LENGTH
    ensures Read(r, x) == r.(sbuf := r.sbuf + x)
    decreases |x|
  {
    if x == [] {
      assert r.sbuf + x == r.sbuf;
    } else {
      Collect(r.(sbuf := r.sbuf + [x[0]]), x[1..]);
      assert r.sbuf + [x[0]] + x[1..] == r.sbuf + x;
    }
  }

  /** The octets that complete a frame header. */
  lemma CollectAll(r: Reader, x: Bytes)
    requires r.phase == InHead || r.phase == InContinuation
    requires x != [] && |r.sbuf| + |x| == HEADER_LENGTH
    ensures var hd := UnpackHd(r.sbuf + x);
            Read(r, x) == if r.phase == InHead then HeadRead(r, hd) else ContinuationRead(r, hd)
  {
    hide UnpackHd, Read;
    var k := |x| - 1;
    assert x == x[..k] + [x[k]];
    ReadAppend(r, x[..k], [x[k]]);
    Collect(r, x[..k]);
    var s := r.(sbuf := r.sbuf + x[..k]);
    ReadLast(s, x[k]);
    assert s.sbuf + [x[k]] == r.sbuf + x;
  }

  lemma {:induction false} CollectPriority(r: Reader, x: Bytes)
    requires r.phase == InPriority && |r.sbuf| + |x| < PRIORITY_LENGTH && |x| <= r.left
    ensures Read(r, x) == r.(sbuf := r.sbuf + x, left := r.left - |x|)
    decreases |x|
  {
    if x == [] {
      assert r.sbuf + x == r.sbuf;
    } else {
      CollectPriority(r.(sbuf := r.sbuf + [x[0]], left := r.left - 1), x[1..]);
      assert r.sbuf + [x[0]] + x[1..] == r.sbuf + x;
    }
  }

  /** The octets that complete the priority field. */
  lemma PriorityAll(r: Reader, x: Bytes)
    requires r.phase == InPriority && x != [] && |r.sbuf| + |x| == PRIORITY_LENGTH && |x| <= r.left
    ensures Read(r, x) == Payload(r.(sbuf := [], left := r.left - |x|, pri := Some(UnpackPri(r.sbuf + x))))
  {
    hide UnpackPri, Read;
    var k := |x| - 1;
    assert x == x[..k] + [x[k]];
    ReadAppend(r, x[..k], [x[k]]);
    CollectPriority(r, x[..k]);
    var s := r.(sbuf := r.sbuf + x[..k], left := r.left - k);
    ReadLast(s, x[k]);
    assert s.sbuf + [x[k]] == r.sbuf + x;
  }

  lemma ReadLast(r: Reader, b: byte)
    ensures Read(r, [b]) == Octet(r, b)
  {
    assert [b][1..] == [];
  }

  lemma ReadHd(r: Reader, hd: Hd)
    requires Packable(hd) && r.sbuf == []
    ensures r.phase == InHead ==> Read(r, PackHd(hd)) == HeadRead(r, hd)
    ensures r.phase == InContinuation ==> Read(r, PackHd(hd)) == ContinuationRead(r, hd)
  {
    hide PackHd, UnpackHd;
    HdRoundTrip(hd);
    if r.phase == InHead || r.phase == InContinuation {
      CollectAll(r, PackHd(hd));
      assert [] + PackHd(hd) == PackHd(hd);
    }
  }

  lemma ReadPri(r: Reader, p: PriSpec)
    requires ValidPri(p) && r.phase == InPriority && r.sbuf == [] && r.left >= PRIORITY_LENGTH
    ensures Read(r, PackPri(p)) == Payload(r.(sbuf := [], left := r.left - PRIORITY_LENGTH, pri := Some(p)))
  {
    hide PackPri, UnpackPri;
    PriRoundTrip(p);
    PriorityAll(r, PackPri(p));
    assert [] + PackPri(p) == PackPri(p);
  }

  /** The block part of a payload. */
  lemma {:induction false} ReadBlock(r: Reader, x: Bytes)
    requires |x| + r.pad == r.left
    ensures Read(Payload(r), x) == Payload(r.(left := r.pad, block := r.block + x))
    decreases |x|
  {
    if x == [] {
      assert r.block + x == r.block;
    } else {
      var s := r.(left := r.left - 1, block := r.block + [x[0]]);
      assert Octet(Payload(r), x[0]) == Payload(s.(phase := InBlock));
      ReadBlock(s, x[1..]);
      PayloadPhase(s, InBlock);
      assert r.block + [x[0]] + x[1..] == r.block + x;
    }
  }

  /** The padding. */
  lemma {:induction false} ReadPadding(r: Reader, x: Bytes)
    requires |x| == r.left <= r.pad
    ensures Read(Payload(r), x) == Payload(r.(left := 0))
    decreases |x|
  {
    if x != [] {
      var s := r.(left := r.left - 1);
      assert Octet(Payload(r), x[0]) == Payload(s.(phase := InBlock));
      ReadPadding(s, x[1..]);
      PayloadPhase(s, InBlock);
    }
  }

  lemma PayloadPhase(r: Reader, phase: Phase)
    ensures Payload(r.(phase := phase)) == Payload(r)
  {
  }

  // ---- frames come back as the block they were cut from ---------------------------------

  function Join(pieces: seq<Bytes>, i: nat): Bytes
    requires i <= |pieces|
    decreases |pieces| - i
  {
    if i == |pieces| then [] else pieces[i] + Join(pieces, i + 1)
  }

  lemma {:induction false} JoinFrom(pieces: seq<Bytes>, i: nat)
    requires i <= |pieces|
    ensures Flatten(pieces[..i]) + Join(pieces, i) == Flatten(pieces)
    decreases |pieces| - i
  {
    if i == |pieces| {
      assert pieces[..i] == pieces;
    } else {
      JoinFrom(pieces, i + 1);
      assert pieces[..i + 1] == pieces[..i] + [pieces[i]];
      FlattenSnoc(pieces[..i], pieces[i]);
      assert Flatten(pieces[..i]) + (pieces[i] + Join(pieces, i + 1))
          == Flatten(pieces[..i]) + pieces[i] + Join(pieces, i + 1);
    }
  }

  /** One CONTINUATION frame. */
  lemma ContinuationFrame(r: Reader, payloads: seq<Bytes>, i: nat, flags: byte)
    requires 1 <= i < |payloads| && Sendable(payloads, r.streamId)
    requires r.phase == InContinuation && r.sbuf == [] && !Bit(r.flags, END_HEADERS)
    ensures var last := i + 1 == |payloads|;
            Read(r, PackHd(FrameHd(payloads, i, flags, r.streamId)) + payloads[i])
            == r.(phase := if last then Done else InContinuation, left := 0, pad := 0, block := r.block + payloads[i],
                  flags := if last then SetEndHeaders(r.flags) else r.flags)
  {
    hide PackHd, Read;
    var hd := FrameHd(payloads, i, flags, r.streamId);
    var x := PackHd(hd);
    ReadAppend(r, x, payloads[i]);
    ReadHd(r, hd);
    FlagBits(r.flags);
    var last := i + 1 == |payloads|;
    var s := r.(sbuf := [], left := hd.length, pad := 0, flags := if last then SetEndHeaders(r.flags) else r.flags);
    assert Bit(hd.flags, END_HEADERS) == last;
    ReadBlock(s, payloads[i]);
  }

  lemma {:induction false} Continuations(r: Reader, payloads: seq<Bytes>, i: nat, flags: byte)
    requires 1 <= i < |payloads| && Sendable(payloads, r.streamId)
    requires r.phase == InContinuation && r.sbuf == [] && !Bit(r.flags, END_HEADERS)
    ensures Read(r, Wire(payloads, i, flags, r.streamId))
            == r.(phase := Done, left := 0, pad := 0, flags := SetEndHeaders(r.flags),
                  block := r.block + Join(payloads, i))
    decreases |payloads| - i
  {
    hide PackHd, Read;
    var x, rest := PackHd(FrameHd(payloads, i, flags, r.streamId)), Wire(payloads, i + 1, flags, r.streamId);
    assert x + (payloads[i] + rest) == x + payloads[i] + rest;
    ReadAppend(r, x + payloads[i], rest);
    ContinuationFrame(r, payloads, i, flags);
    var s := Read(r, x + payloads[i]);
    if i + 1 == |payloads| {
      ReadNothing(s);
      assert Join(payloads, i) == payloads[i] + [];
      assert payloads[i] + [] == payloads[i];
    } else {
      Continuations(s, payloads, i + 1, flags);
      assert r.block + payloads[i] + Join(payloads, i + 1) == r.block + (payloads[i] + Join(payloads, i + 1));
    }
  }

  lemma ReadNothing(r: Reader)
    ensures Read(r, []) == r
  {
  }

  /** The payload of the HEADERS frame from the priority field on, with `r.pad` octets of padding behind. */
  lemma FromPriority(r: Reader, pri: Option<PriSpec>, piece: Bytes)
    requires (pri.Some? ==> ValidPri(pri.value)) && Bit(r.flags, PRIORITY) == pri.Some? && r.sbuf == [] && r.pri == None
    requires r.left == |PriField(pri)| + |piece| + r.pad && r.block == []
    ensures Read(Unpadded(r), PriField(pri) + (piece + Zeros(r.pad)))
            == Payload(r.(phase := InBlock, left := 0, pri := pri, block := piece))
  {
    hide PackPri, Read, Bit;
    if pri.Some? {
      PriRoundTrip(pri.value);
      var t := r.(phase := InPriority);
      ReadAppend(t, PriField(pri), piece + Zeros(r.pad));
      ReadPri(t, pri.value);
      FromBlock(t.(left := |piece| + r.pad, pri := pri), piece);
    } else {
      assert PriField(pri) + (piece + Zeros(r.pad)) == piece + Zeros(r.pad);
      FromBlock(r, piece);
    }
  }

  lemma FromBlock(r: Reader, piece: Bytes)
    requires r.left == |piece| + r.pad && r.block == []
    ensures Read(Payload(r), piece + Zeros(r.pad)) == Payload(r.(phase := InBlock, left := 0, block := piece))
  {
    hide Read, Bit;
    ReadAppend(Payload(r), piece, Zeros(r.pad));
    ReadBlock(r, piece);
    assert [] + piece == piece;
    var s := r.(left := r.pad, block := piece);
    ReadPadding(s, Zeros(r.pad));
    PayloadPhase(s.(left := 0), InBlock);
  }

  /** The HEADERS frame; `piece` is the part of its payload after the priority field. */
  lemma HeadersFrame(hd: Hd, pri: Option<PriSpec>, piece: Bytes, pad: nat)
    requires Packable(hd) && hd.kind == HEADERS && (pri.Some? ==> ValidPri(pri.value)) && pad <= MAX_PADDING
    requires Bit(hd.flags, PRIORITY) == pri.Some? && Bit(hd.flags, PADDED) == (pad > 0)
    requires hd.length == |Padded(PriField(pri) + piece, pad)| <= MAX_PAYLOAD
    ensures Read(FRESH, PackHd(hd) + Padded(PriField(pri) + piece, pad))
            == Payload(Reader(InBlock, [], 0, 0, Masked(hd.flags), hd.streamId, pri, piece))
  {
    hide PackHd, PackPri, Read, Bit, Masked;
    ReadHd(FRESH, hd);
    MaskBits(hd.flags);
    ReadAppend(FRESH, PackHd(hd), Padded(PriField(pri) + piece, pad));
    var s := Reader(InHead, [], hd.length, 0, Masked(hd.flags), hd.streamId, None, []);
    if pad == 0 {
      assert Padded(PriField(pri) + piece, pad) == PriField(pri) + (piece + Zeros(0));
      FromPriority(s, pri, piece);
      PriorityFits(pri);
      PayloadPad(s.(phase := InBlock, left := 0, pri := pri, block := piece), 0);
    } else {
      PadLengthRead(s, pri, piece, pad);
    }
  }

  lemma PriorityFits(pri: Option<PriSpec>)
    requires pri.Some? ==> ValidPri(pri.value)
    ensures |PriField(pri)| == if pri.Some? then PRIORITY_LENGTH else 0
  {
    if pri.Some? { PriRoundTrip(pri.value); }
  }

  lemma PayloadPad(r: Reader, pad: nat)
    requires r.left == 0
    ensures Payload(r.(pad := pad)) == Payload(r)
  {
  }

  lemma PadLengthRead(s: Reader, pri: Option<PriSpec>, piece: Bytes, pad: nat)
    requires (pri.Some? ==> ValidPri(pri.value)) && 0 < pad <= MAX_PADDING && Bit(s.flags, PRIORITY) == pri.Some?
    requires s == Reader(InHead, [], |Padded(PriField(pri) + piece, pad)|, 0, s.flags, s.streamId, None, [])
    ensures Read(s.(phase := InPadLength), Padded(PriField(pri) + piece, pad))
            == Payload(Reader(InBlock, [], 0, 0, s.flags, s.streamId, pri, piece))
  {
    hide PackPri, Read, Bit;
    PriorityFits(pri);
    var rest := PriField(pri) + (piece + Zeros(pad - 1));
    var b: byte := pad - 1;
    assert Padded(PriField(pri) + piece, pad) == [b] + rest;
    ReadAppend(s.(phase := InPadLength), [b], rest);
    ReadLast(s.(phase := InPadLength), b);
    var t := s.(phase := InPadLength, left := s.left - 1, pad := pad - 1);
    assert PadRead(s.(phase := InPadLength), b) == Unpadded(t);
    FromPriority(t, pri, piece);
    PayloadPad(t.(phase := InBlock, left := 0, pri := pri, block := piece), 0);
  }

  /**
   * Whatever the block and however it was cut and padded, reading the frames gives the block, the stream, the
   * priority and the flags back, but for flags that HEADERS does not have.
   */
  lemma Reassembled(pieces: seq<Bytes>, pri: Option<PriSpec>, pad: nat, flags: byte, streamId: nat)
    requires pieces != [] && (pri.Some? ==> ValidPri(pri.value)) && pad <= MAX_PADDING
    requires Sendable(PadFirst(Payloads(pieces, pri), pad), streamId)
    requires Bit(flags, END_HEADERS) && Bit(flags, PRIORITY) == pri.Some? && Bit(flags, PADDED) == (pad > 0)
    ensures Read(FRESH, Wire(PadFirst(Payloads(pieces, pri), pad), 0, flags, streamId))
            == Reader(Done, [], 0, 0, Masked(flags), streamId, pri, Flatten(pieces))
  {
    hide PackHd, PackPri, Read, Join, Flatten, Masked, Bit;
    var payloads := PadFirst(Payloads(pieces, pri), pad);
    var hd := FrameHd(payloads, 0, flags, streamId);
    var rest := Wire(payloads, 1, flags, streamId);
    FlagBits(flags);
    MaskSetClear(flags);
    MaskBits(hd.flags);
    HeadersFrame(hd, pri, pieces[0], pad);
    assert PackHd(hd) + (payloads[0] + rest) == PackHd(hd) + payloads[0] + rest;
    ReadAppend(FRESH, PackHd(hd) + payloads[0], rest);
    var r := Payload(Reader(InBlock, [], 0, 0, Masked(hd.flags), streamId, pri, pieces[0]));
    JoinFirst(pieces, payloads);
    if |payloads| == 1 {
      ReadNothing(r);
    } else {
      Continuations(r, payloads, 1, flags);
    }
  }

  lemma FirstPayload(pieces: seq<Bytes>, pri: Option<PriSpec>)
    requires pieces != [] && (pri.Some? ==> ValidPri(pri.value))
    ensures |Payloads(pieces, pri)[0]| == |pieces[0]| + if pri.Some? then PRIORITY_LENGTH else 0
  {
    PriorityFits(pri);
  }

  lemma {:induction false} JoinSame(a: seq<Bytes>, b: seq<Bytes>, i: nat)
    requires i <= |a| == |b| && forall k :: i <= k < |a| ==> a[k] == b[k]
    ensures Join(a, i) == Join(b, i)
    decreases |a| - i
  {
    if i < |a| { JoinSame(a, b, i + 1); }
  }

  lemma JoinFirst(pieces: seq<Bytes>, payloads: seq<Bytes>)
    requires pieces != [] && |payloads| == |pieces| && forall k :: 1 <= k < |pieces| ==> payloads[k] == pieces[k]
    ensures Flatten(pieces) == pieces[0] + Join(payloads, 1)
    ensures |pieces| == 1 ==> Flatten(pieces) == pieces[0]
  {
    JoinSame(pieces, payloads, 1);
    JoinFrom(pieces, 1);
    assert pieces[..1] == [] + [pieces[0]];
    FlattenSnoc([], pieces[0]);
    assert [] + pieces[0] == pieces[0];
    if |pieces| == 1 { assert pieces[0] + [] == pieces[0]; }
  }

  // ---- reading as the source does, a run of octets at a time ------------------------------

  /** A reader in the middle of its work. */
  predicate Reading(r: Reader)
  {
    match r.phase
    case InHead => |r.sbuf| < HEADER_LENGTH
    case InPadLength => r.sbuf == [] && r.left > 0
    case InPriority => |r.sbuf| < PRIORITY_LENGTH && r.left + |r.sbuf| >= PRIORITY_LENGTH
    case InBlock => r.left > 0
    case InContinuation => |r.sbuf| < HEADER_LENGTH
    case Done => true
    case Failed => true
  }

  lemma OctetReading(r: Reader, b: byte)
    requires Reading(r)
    ensures Reading(Octet(r, b))
  {
    hide UnpackHd, UnpackPri, Bit, Masked;
  }

  lemma {:induction false} ReadReading(r: Reader, x: Bytes)
    requires Reading(r)
    ensures Reading(Read(r, x))
    decreases |x|
  {
    hide Reading, Octet;
    if x != [] {
      OctetReading(r, x[0]);
      ReadReading(Octet(r, x[0]), x[1..]);
    }
  }

  lemma ReadSplit(r: Reader, input: Bytes, i: nat, k: nat)
    requires i + k <= |input|
    ensures Read(r, input[i..]) == Read(Read(r, input[i..i + k]), input[i + k..])
  {
    assert input[i..] == input[i..i + k] + input[i + k..];
    ReadAppend(r, input[i..i + k], input[i + k..]);
  }

  /** inbound_frame_effective_readlen: how many of `n` octets read are not padding. */
  function EffectiveLength(left: nat, pad: nat, n: nat): nat
    requires n <= left
  {
    var after := left - n;
    if pad > after then (if n < pad - after then 0 else n - (pad - after)) else n
  }

  lemma EffectiveAtMost(left: nat, pad: nat, n: nat)
    requires n <= left
    ensures EffectiveLength(left, pad, n) <= n
  {
  }

  lemma {:induction false} ReadPartOfBlock(r: Reader, x: Bytes)
    requires r.phase == InBlock && 0 < |x| <= r.left
    ensures Read(r, x)
            == Payload(r.(left := r.left - |x|, block := r.block + x[..EffectiveLength(r.left, r.pad, |x|)]))
    decreases |x|
  {
    var s := r.(left := r.left - 1, block := if r.left > r.pad then r.block + [x[0]] else r.block);
    assert Octet(r, x[0]) == Payload(s);
    var k := EffectiveLength(r.left, r.pad, |x|);
    assert r.left > r.pad ==> k > 0 && r.block + [x[0]] + x[1..][..k - 1] == r.block + x[..k];
    assert r.left <= r.pad ==> k == 0 && r.block + x[..0] == r.block;
    if |x| == 1 {
      assert x[1..] == [];
    } else {
      ReadPartOfBlock(s, x[1..]);
    }
  }

  lemma {:induction false} ReadIdle(r: Reader, x: Bytes)
    requires r.phase == Done || r.phase == Failed
    ensures Read(r, x) == r
    decreases |x|
  {
    if x != [] { ReadIdle(r, x[1..]); }
  }

  /**
   * The states of nghttp2_session_mem_recv that read a header block; `parts` are the pieces of the block handed to
   * the inflater on the way.
   */
  method MemRecv(start: Reader, input: Bytes) returns (r: Reader, parts: seq<Bytes>)
    requires Reading(start)
    ensures Reading(r) && r == Read(start, input) && r.block == start.block + Flatten(parts)
  {
    hide Read, UnpackHd, UnpackPri, Flatten, Payload, HeadRead, ContinuationRead, PadRead, EffectiveLength;
    r := start;
    parts := [];
    FlattenNone();
    var i := 0;
    assert input[0..] == input;
    while i < |input|
      invariant 0 <= i <= |input| && Reading(r) && Read(r, input[i..]) == Read(start, input)
      invariant r.block == start.block + Flatten(parts)
    {
      var avail := |input| - i;
      if r.phase == Done || r.phase == Failed {
        ReadIdle(r, input[i..]);
        return;
      }
      var want := match r.phase
        case InBlock => r.left
        case InPadLength => 1
        case InPriority => PRIORITY_LENGTH - |r.sbuf|
        case _ => HEADER_LENGTH - |r.sbuf|;
      var n := if want <= avail then want else avail;
      var x := input[i..i + n];
      ReadSplit(r, input, i, n);
      ReadReading(r, x);
      BlockKept(r, x);
      if r.phase == InBlock {
        ReadPartOfBlock(r, x);
        EffectiveAtMost(r.left, r.pad, n);
        var part := x[..EffectiveLength(r.left, r.pad, n)];
        PayloadBlock(r.(left := r.left - n, block := r.block + part));
        FlattenSnoc(parts, part);
        assert start.block + Flatten(parts) + part == start.block + (Flatten(parts) + part);
        parts := parts + [part];
        r := Payload(r.(left := r.left - n, block := r.block + part));
      } else if r.phase == InPadLength {
        assert x == [x[0]];
        ReadLast(r, x[0]);
        r := PadRead(r, x[0]);
      } else if n < want {
        if r.phase == InPriority {
          CollectPriority(r, x);
          r := r.(sbuf := r.sbuf + x, left := r.left - n);
        } else {
          Collect(r, x);
          r := r.(sbuf := r.sbuf + x);
        }
      } else if r.phase == InPriority {
        PriorityAll(r, x);
        r := Payload(r.(sbuf := [], left := r.left - n, pri := Some(UnpackPri(r.sbuf + x))));
      } else {
        CollectAll(r, x);
        r := if r.phase == InHead then HeadRead(r, UnpackHd(r.sbuf + x)) else ContinuationRead(r, UnpackHd(r.sbuf + x));
      }
      i := i + n;
    }
    assert input[i..] == [];
    ReadNothing(r);
  }

  lemma PayloadBlock(r: Reader)
    ensures Payload(r).block == r.block
  {
  }

  /** Octets of the fixed-size fields do not belong to the block. */
  lemma BlockKept(r: Reader, x: Bytes)
    requires Reading(r) && x != []
    requires r.phase == InHead || r.phase == InContinuation ==> |r.sbuf| + |x| <= HEADER_LENGTH
    requires r.phase == InPriority ==> |r.sbuf| + |x| <= PRIORITY_LENGTH
    requires r.phase == InPadLength ==> |x| == 1
    ensures r.phase != InBlock ==> Read(r, x).block == r.block
  {
    hide Read, UnpackHd, UnpackPri, Bit, Masked;
    match r.phase
    case InBlock =>
    case Done => ReadIdle(r, x);
    case Failed => ReadIdle(r, x);
    case InPadLength => assert x == [x[0]]; ReadLast(r, x[0]);
    case InPriority => if |r.sbuf| + |x| < PRIORITY_LENGTH { CollectPriority(r, x); } else { PriorityAll(r, x); }
    case _ => if |r.sbuf| + |x| < HEADER_LENGTH { Collect(r, x); } else { CollectAll(r, x); }
  }

  lemma FlattenNone()
    ensures Flatten([]) == []
  {
  }

  // ---- packing the frames of a buffer chain -----------------------------------------------

  lemma {:induction false} WireSnoc(payloads: seq<Bytes>, i: nat, j: nat, flags: byte, streamId: nat)
    requires i <= j < |payloads| && Sendable(payloads, streamId)
    ensures WirePart(payloads, i, j + 1, flags, streamId)
            == WirePart(payloads, i, j, flags, streamId)
               + (PackHd(FrameHd(payloads, j, flags, streamId)) + payloads[j])
    decreases j - i
  {
    hide PackHd;
    var x := PackHd(FrameHd(payloads, i, flags, streamId)) + payloads[i];
    if i == j {
      assert WirePart(payloads, j + 1, j + 1, flags, streamId) == [];
      assert x + [] == x && [] + x == x;
    } else {
      WireSnoc(payloads, i + 1, j, flags, streamId);
      var y := PackHd(FrameHd(payloads, j, flags, streamId)) + payloads[j];
      assert x + (WirePart(payloads, i + 1, j, flags, streamId) + y)
             == x + WirePart(payloads, i + 1, j, flags, streamId) + y;
    }
  }

  /** The octets of frames `i` to `j`. */
  function WirePart(payloads: seq<Bytes>, i: nat, j: nat, flags: byte, streamId: nat): Bytes
    requires i <= j <= |payloads| && Sendable(payloads, streamId)
    decreases j - i
  {
    if i == j then []
    else PackHd(FrameHd(payloads, i, flags, streamId)) + payloads[i] + WirePart(payloads, i + 1, j, flags, streamId)
  }

  lemma {:induction false} WireIsPart(payloads: seq<Bytes>, i: nat, flags: byte, streamId: nat)
    requires i <= |payloads| && Sendable(payloads, streamId)
    ensures Wire(payloads, i, flags, streamId) == WirePart(payloads, i, |payloads|, flags, streamId)
    decreases |payloads| - i
  {
    hide PackHd;
    if i < |payloads| {
      WireIsPart(payloads, i + 1, flags, streamId);
      var x := PackHd(FrameHd(payloads, i, flags, streamId));
      assert x + payloads[i] + Wire(payloads, i + 1, flags, streamId)
          == x + (payloads[i] + Wire(payloads, i + 1, flags, streamId));
    }
  }

  /** frame_pack_headers_shared: a header in front of every buffer of the chain. */
  method PackHeadersShared(payloads: seq<Bytes>, flags: byte, streamId: nat) returns (wire: Bytes)
    requires payloads != [] && Sendable(payloads, streamId)
    ensures wire == Wire(payloads, 0, flags, streamId)
  {
    hide PackHd;
    var hd := Hd(|payloads[0]|, HEADERS, flags, streamId);
    var cur := |payloads| - 1;
    if cur != 0 { hd := hd.(flags := ClearEndHeaders(hd.flags)); }
    assert hd == FrameHd(payloads, 0, flags, streamId);
    wire := PackHd(hd) + payloads[0];
    WireSnoc(payloads, 0, 0, flags, streamId);
    assert [] + wire == wire;
    if cur != 0 {
      hd := hd.(kind := CONTINUATION, flags := 0);
      var ci := 1;
      while ci != cur
        invariant 1 <= ci <= cur && hd == hd.(kind := CONTINUATION, flags := 0, streamId := streamId)
        invariant wire == WirePart(payloads, 0, ci, flags, streamId)
        decreases cur - ci
      {
        hd := hd.(length := |payloads[ci]|);
        assert hd == FrameHd(payloads, ci, flags, streamId);
        WireSnoc(payloads, 0, ci, flags, streamId);
        wire := wire + (PackHd(hd) + payloads[ci]);
        ci := ci + 1;
      }
      hd := hd.(length := |payloads[ci]|, flags := END_HEADERS);
      assert hd == FrameHd(payloads, ci, flags, streamId);
      WireSnoc(payloads, 0, ci, flags, streamId);
      wire := wire + (PackHd(hd) + payloads[ci]);
    }
    WireIsPart(payloads, 0, flags, streamId);
  }

  lemma {:induction false} WireTail(payloads: seq<Bytes>, payloads': seq<Bytes>, i: nat, flags: byte, flags': byte,
                                    streamId: nat)
    requires 1 <= i <= |payloads| == |payloads'| && Sendable(payloads, streamId) && Sendable(payloads', streamId)
    requires forall k :: 1 <= k < |payloads| ==> payloads'[k] == payloads[k]
    ensures Wire(payloads', i, flags', streamId) == Wire(payloads, i, flags, streamId)
    decreases |payloads| - i
  {
    hide PackHd;
    if i < |payloads| { WireTail(payloads, payloads', i + 1, flags, flags', streamId); }
  }

  /**
   * nghttp2_frame_add_pad: the header of the first frame moves one octet to the left, with a new length and the
   * PADDED flag, and makes room for the length of the padding; the padding goes behind the payload.
   */
  method AddPad(wire: Bytes, pad: nat, ghost payloads: seq<Bytes>, ghost flags: byte, ghost streamId: nat)
    returns (padded: Bytes)
    requires payloads != [] && Sendable(payloads, streamId) && wire == Wire(payloads, 0, flags, streamId)
    requires pad <= MAX_PADDING && |payloads[0]| + pad <= MAX_PAYLOAD
    ensures Sendable(PadFirst(payloads, pad), streamId)
    ensures padded == Wire(PadFirst(payloads, pad), 0, if pad > 0 then SetPadded(flags) else flags, streamId)
  {
    hide PackHd, UnpackHd, Bit;
    ghost var after := PadFirst(payloads, pad);
    assert Sendable(after, streamId);
    if pad == 0 {
      assert after == payloads;
      return wire;
    }
    ghost var hd0 := FrameHd(payloads, 0, flags, streamId);
    HdRoundTrip(hd0);
    ghost var tail := Wire(payloads, 1, flags, streamId);
    HeadOf(hd0, payloads[0] + tail);
    var hd := UnpackHd(wire);
    var body := wire[HEADER_LENGTH..];
    assert body == payloads[0] + tail;
    var payload, rest := body[..hd.length], body[hd.length..];
    assert payload == payloads[0] && rest == tail;
    PaddedClear(flags);
    hd := hd.(length := hd.length + pad, flags := SetPadded(hd.flags));
    assert hd == FrameHd(after, 0, SetPadded(flags), streamId);
    padded := PackHd(hd) + (([pad - 1] + payload + Zeros(pad - 1)) + rest);
    WireTail(payloads, after, 1, flags, SetPadded(flags), streamId);
  }

  lemma HeadOf(hd: Hd, rest: Bytes)
    requires Packable(hd)
    ensures |PackHd(hd)| == HEADER_LENGTH && UnpackHd(PackHd(hd) + rest) == hd
    ensures (PackHd(hd) + rest)[HEADER_LENGTH..] == rest
  {
    HdRoundTrip(hd);
    var p := PackHd(hd);
    hide PackHd;
    var w := p + rest;
    assert w[..4] == p[..4] && w[5..][..4] == p[5..][..4];
    GetPrefix(w, p[..4]);
    GetPrefix(p, p[..4]);
    GetPrefix(w[5..], p[5..]);
  }
}
