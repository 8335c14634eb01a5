/**
 * What frames say, after sections 4.1, 6.2 and 6.10 of RFC 7540: a HEADERS frame with its padding and priority, and the
 * CONTINUATION frames behind it, each looked at as a whole.  The octet-by-octet reader of lib/nghttp2_session.c gives
 * the same verdict and the same contents on every string of octets.
 */
module FrameGrammar {
  import opened Bytes
  import opened FrameHeader
  import opened HeaderFrames

  datatype Verdict = Incomplete | Bad | Complete(flags: byte, streamId: nat, pri: Option<PriSpec>, block: Bytes)

  /** CONTINUATION frames of the same stream, up to the one with END_HEADERS. */
  function Continued(bs: Bytes, flags: byte, streamId: nat, pri: Option<PriSpec>, block: Bytes): Verdict
    decreases |bs|
  {
    if |bs| < HEADER_LENGTH then Incomplete
    else
      var hd := UnpackHd(bs[..HEADER_LENGTH]);
      var end := HEADER_LENGTH + hd.length;
      if hd.kind != CONTINUATION || hd.streamId != streamId then Bad
      else if |bs| < end then Incomplete
      else if Bit(hd.flags, END_HEADERS)
      then Complete(SetEndHeaders(flags), streamId, pri, block + bs[HEADER_LENGTH..end])
      else Continued(bs[end..], flags, streamId, pri, block + bs[HEADER_LENGTH..end])
  }

  function PriorityField(flags: byte): nat { if Bit(flags, PRIORITY) then PRIORITY_LENGTH else 0 }

  /** A HEADERS frame whose payload begins with `skip` octets of pad length and ends with `pad` octets of padding. */
  function Unwrapped(bs: Bytes, hd: Hd, skip: nat, pad: nat): Verdict
    requires |bs| >= HEADER_LENGTH
  {
    var fixed, flags := PriorityField(hd.flags), Masked(hd.flags);
    if skip + fixed + pad > hd.length then Bad
    else if |bs| < HEADER_LENGTH + hd.length then Incomplete
    else
      var body := bs[HEADER_LENGTH + skip..HEADER_LENGTH + hd.length - pad];
      var pri := if Bit(hd.flags, PRIORITY) then Some(UnpackPri(body[..PRIORITY_LENGTH])) else None;
      if Bit(hd.flags, END_HEADERS) then Complete(flags, hd.streamId, pri, body[fixed..])
      else Continued(bs[HEADER_LENGTH + hd.length..], flags, hd.streamId, pri, body[fixed..])
  }

  function Parse(bs: Bytes): Verdict
  {
    if |bs| < HEADER_LENGTH then Incomplete
    else
      var hd := UnpackHd(bs[..HEADER_LENGTH]);
      if hd.kind != HEADERS || hd.length > MAX_PAYLOAD then Bad
      else if !Bit(hd.flags, PADDED) then Unwrapped(bs, hd, 0, 0)
      else if hd.length == 0 then Bad
      else if |bs| == HEADER_LENGTH then Incomplete
      else Unwrapped(bs, hd, 1, bs[HEADER_LENGTH])
  }

  // ---- the reader --------------------------------------------------------------------------------

  /** The reader has come to this verdict. */
  predicate Says(r: Reader, v: Verdict)
  {
    match v
    case Incomplete => r.phase != Done && r.phase != Failed
    case Bad => r.phase == Failed
    case Complete(flags, streamId, pri, block) =>
      r.phase == Done && r.flags == flags && r.streamId == streamId && r.pri == pri && r.block == block
  }

  lemma ReadTo(r: Reader, bs: Bytes, k: nat)
    requires k <= |bs|
    ensures Read(r, bs) == Read(Read(r, bs[..k]), bs[k..])
  {
    hide Read;
    assert bs == bs[..k] + bs[k..];
    ReadAppend(r, bs[..k], bs[k..]);
  }

  /** Once a reader has failed or is done it stays so. */
  lemma Final(r: Reader, bs: Bytes, k: nat)
    requires k <= |bs| && (Read(r, bs[..k]).phase == Done || Read(r, bs[..k]).phase == Failed)
    ensures Read(r, bs) == Read(r, bs[..k])
  {
    hide Read;
    ReadTo(r, bs, k);
    ReadIdle(Read(r, bs[..k]), bs[k..]);
  }

  /** A payload that has not all arrived. */
  lemma {:induction false} Waiting(r: Reader, x: Bytes)
    requires Reading(r) && |x| < r.left
    requires r.phase == InBlock || (r.phase == InPriority && r.sbuf == [] && r.left >= PRIORITY_LENGTH)
    ensures Read(r, x).phase != Done && Read(r, x).phase != Failed
  {
    hide Read, UnpackPri;
    if x == [] {
      ReadNothing(r);
    } else if r.phase == InBlock {
      ReadPartOfBlock(r, x);
    } else if |x| < PRIORITY_LENGTH {
      CollectPriority(r, x);
    } else {
      var k := PRIORITY_LENGTH;
      ReadTo(r, x, k);
      PriorityAll(r, x[..k]);
      var s := Payload(r.(sbuf := [], left := r.left - k, pri := Some(UnpackPri(r.sbuf + x[..k]))));
      if |x| == k { ReadNothing(s); assert x[k..] == []; } else { ReadPartOfBlock(s, x[k..]); }
    }
  }

  lemma ShortHead(r: Reader, bs: Bytes)
    requires (r.phase == InHead || r.phase == InContinuation) && r.sbuf == [] && |bs| < HEADER_LENGTH
    ensures Says(Read(r, bs), Incomplete)
  {
    Collect(r, bs);
  }

  lemma HeadOf(r: Reader, bs: Bytes)
    requires (r.phase == InHead || r.phase == InContinuation) && r.sbuf == [] && |bs| >= HEADER_LENGTH
    ensures var hd := UnpackHd(bs[..HEADER_LENGTH]);
            Read(r, bs[..HEADER_LENGTH]) == if r.phase == InHead then HeadRead(r, hd) else ContinuationRead(r, hd)
  {
    hide Read, UnpackHd;
    CollectAll(r, bs[..HEADER_LENGTH]);
    assert [] + bs[..HEADER_LENGTH] == bs[..HEADER_LENGTH];
  }

  lemma {:induction false} ContinuedSays(r: Reader, bs: Bytes)
    requires r.phase == InContinuation && r.sbuf == [] && !Bit(r.flags, END_HEADERS)
    ensures Says(Read(r, bs), Continued(bs, r.flags, r.streamId, r.pri, r.block))
    decreases |bs|
  {
    hide Read, UnpackHd, Bit, SetEndHeaders;
    if |bs| < HEADER_LENGTH {
      ShortHead(r, bs);
    } else {
      var hd := UnpackHd(bs[..HEADER_LENGTH]);
      HeadOf(r, bs);
      ReadTo(r, bs, HEADER_LENGTH);
      var end, rest := HEADER_LENGTH + hd.length, bs[HEADER_LENGTH..];
      if hd.kind != CONTINUATION || hd.streamId != r.streamId {
        Final(r, bs, HEADER_LENGTH);
      } else {
        FlagBits(r.flags);
        var s := r.(sbuf := [], left := hd.length, pad := 0,
                    flags := if Bit(hd.flags, END_HEADERS) then SetEndHeaders(r.flags) else r.flags);
        if |bs| < end {
          Waiting(Payload(s), rest);
        } else {
          ReadTo(Payload(s), rest, hd.length);
          assert rest[..hd.length] == bs[HEADER_LENGTH..end] && rest[hd.length..] == bs[end..];
          ReadBlock(s, rest[..hd.length]);
          var t := Payload(s.(left := 0, block := s.block + bs[HEADER_LENGTH..end]));
          if Bit(hd.flags, END_HEADERS) { ReadIdle(t, bs[end..]); } else { ContinuedSays(t, bs[end..]); }
        }
      }
    }
  }

  /** The payload of the HEADERS frame from the priority field on. */
  lemma PayloadRead(r: Reader, x: Bytes)
    requires r.sbuf == [] && r.block == [] && r.pri == None && |x| == r.left >= PriorityField(r.flags) + r.pad
    ensures var body := x[..r.left - r.pad];
            Read(Unpadded(r), x)
            == Payload(r.(phase := InBlock, left := 0, block := body[PriorityField(r.flags)..],
                          pri := if Bit(r.flags, PRIORITY) then Some(UnpackPri(body[..PRIORITY_LENGTH])) else None))
  {
    hide Read, UnpackPri, Bit;
    var body, k := x[..r.left - r.pad], PriorityField(r.flags);
    if Bit(r.flags, PRIORITY) {
      var t := r.(phase := InPriority);
      ReadTo(t, x, k);
      PriorityAll(t, x[..k]);
      assert [] + x[..k] == body[..k];
      var u := t.(left := r.left - k, pri := Some(UnpackPri(body[..k])));
      assert Payload(u.(sbuf := [])) == Payload(u);
      BodyRead(u, x[k..]);
      assert x[k..][..u.left - u.pad] == body[k..];
    } else {
      BodyRead(r, x);
      assert body[0..] == body;
    }
  }

  lemma BodyRead(r: Reader, x: Bytes)
    requires |x| == r.left >= r.pad && r.block == []
    ensures Read(Payload(r), x) == Payload(r.(phase := InBlock, left := 0, block := x[..r.left - r.pad]))
  {
    hide Read, Bit;
    var k := r.left - r.pad;
    var piece := x[..k];
    ReadTo(Payload(r), x, k);
    ReadBlock(r, piece);
    assert [] + piece == piece;
    var s := r.(left := r.pad, block := piece);
    ReadPadding(s, x[k..]);
    PayloadPhase(s.(left := 0), InBlock);
  }

  /** The payload of the HEADERS frame is to come from `rest` on. */
  lemma UnwrappedSays(r: Reader, bs: Bytes, hd: Hd, skip: nat)
    requires |bs| >= HEADER_LENGTH + skip && r.sbuf == [] && r.block == [] && r.pri == None
    requires skip <= hd.length && r.left == hd.length - skip && r.flags == Masked(hd.flags) && r.streamId == hd.streamId
    requires PriorityField(hd.flags) + r.pad <= r.left
    ensures Says(Read(Unpadded(r), bs[HEADER_LENGTH + skip..]), Unwrapped(bs, hd, skip, r.pad))
  {
    hide Read, UnpackPri, Bit, Masked, SetEndHeaders;
    MaskBits(hd.flags);
    var from, end := HEADER_LENGTH + skip, HEADER_LENGTH + hd.length;
    var rest := bs[from..];
    if |bs| < end {
      Waiting(Unpadded(r), rest);
    } else {
      var x := rest[..r.left];
      ReadTo(Unpadded(r), rest, r.left);
      PayloadRead(r, x);
      var body := bs[from..end - r.pad];
      assert x[..r.left - r.pad] == body && rest[r.left..] == bs[end..];
      var t := Read(Unpadded(r), x);
      if Bit(hd.flags, END_HEADERS) {
        ReadIdle(t, bs[end..]);
      } else {
        ContinuedSays(t, bs[end..]);
      }
    }
  }

  /** Every string of octets gets the verdict, and the contents, that the frames in it have. */
  lemma ReaderParses(bs: Bytes)
    ensures Says(Read(FRESH, bs), Parse(bs))
  {
    hide Read, UnpackHd, Bit, Masked, Unwrapped;
    if |bs| < HEADER_LENGTH {
      ShortHead(FRESH, bs);
    } else {
      var hd := UnpackHd(bs[..HEADER_LENGTH]);
      MaskBits(hd.flags);
      HeadOf(FRESH, bs);
      ReadTo(FRESH, bs, HEADER_LENGTH);
      var r := HeadRead(FRESH, hd);
      if r.phase == Failed {
        Final(FRESH, bs, HEADER_LENGTH);
        if !Bit(hd.flags, PADDED) && hd.kind == HEADERS && hd.length <= MAX_PAYLOAD { TooShort(bs, hd, 0, 0); }
      } else if !Bit(hd.flags, PADDED) {
        UnwrappedSays(Reader(InHead, [], hd.length, 0, Masked(hd.flags), hd.streamId, None, []), bs, hd, 0);
      } else {
        PaddedSays(r, bs, hd);
      }
    }
  }

  lemma TooShort(bs: Bytes, hd: Hd, skip: nat, pad: nat)
    requires |bs| >= HEADER_LENGTH && skip + PriorityField(hd.flags) + pad > hd.length
    ensures Unwrapped(bs, hd, skip, pad) == Bad
  {
  }

  lemma PaddedSays(r: Reader, bs: Bytes, hd: Hd)
    requires |bs| >= HEADER_LENGTH && hd.length > 0
    requires r == Reader(InPadLength, [], hd.length, 0, Masked(hd.flags), hd.streamId, None, [])
    ensures Says(Read(r, bs[HEADER_LENGTH..]),
                 if |bs| == HEADER_LENGTH then Incomplete else Unwrapped(bs, hd, 1, bs[HEADER_LENGTH]))
  {
    hide Read, Bit, Masked, Unwrapped;
    MaskBits(hd.flags);
    var rest := bs[HEADER_LENGTH..];
    if |bs| == HEADER_LENGTH {
      ReadNothing(r);
      assert rest == [];
    } else {
      ReadTo(r, rest, 1);
      assert rest[..1] == [rest[0]] && rest[1..] == bs[HEADER_LENGTH + 1..];
      ReadLast(r, rest[0]);
      var s := r.(left := r.left - 1, pad := rest[0]);
      if s.pad + PriorityField(hd.flags) > s.left {
        Final(r, rest, 1);
        TooShort(bs, hd, 1, rest[0]);
      } else {
        UnwrappedSays(s, bs, hd, 1);
      }
    }
  }
}
