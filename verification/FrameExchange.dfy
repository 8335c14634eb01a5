/**
 * A header list travels from the deflater of one session to the inflater of another in HEADERS and
 * CONTINUATION frames, over a transport that cuts the octets anywhere.
 */
module FrameExchange {
  import opened Bytes
  import opened StaticTable
  import opened DynamicTable
  import opened RingBuffer
  import opened TableObject
  import opened Buffers
  import opened DeflaterObject
  import opened InflaterObject
  import opened HeaderBlock
  import opened HeaderSync
  import opened FrameHeader
  import opened HeaderFrames
  import HeaderExchange
  import D = Deflate
  import I = Inflate

  lemma PayloadsFit(pieces: seq<Bytes>, pri: Option<PriSpec>, streamId: nat)
    requires pieces != [] && streamId < 0x8000_0000 && (pri.Some? ==> ValidPri(pri.value))
    requires forall i :: 0 <= i < |pieces| ==> |pieces[i]| <= MAX_PAYLOAD
    requires |pieces[0]| <= MAX_PAYLOAD - if pri.Some? then PRIORITY_LENGTH else 0
    ensures Payloads(pieces, pri) != [] && Sendable(Payloads(pieces, pri), streamId)
  {
    FirstPayload(pieces, pri);
  }

  /** What session_call_select_padding accepts from the application, which chooses a padding for a length. */
  predicate Choice(n: nat, pad: nat) { pad <= MAX_PADDING && (pad > 0 ==> n + pad <= MAX_PAYLOAD) }

  function FinalFlags(flags: byte, pad: nat): byte { if pad > 0 then SetPadded(flags) else flags }

  /** nghttp2_frame_pack_headers deflates behind `offset` bytes that are kept free; the pieces are its buffers. */
  method DeflatePieces(d: HdDeflater, nvs: seq<D.Nv>, chunks: nat, offset: nat) returns (ok: bool, pieces: seq<Bytes>)
    requires d.Valid() && FieldsFit(nvs) && chunks > 0 && offset <= MAX_PAYLOAD
    modifies d`notify, d`min, d`bad, d.ctx, d.ctx.ring, d.ctx.ring.buffer
    ensures d.Valid() && d.bad == !ok
    ensures d.ctx.ring.buffer == old(d.ctx.ring.buffer) || fresh(d.ctx.ring.buffer)
    ensures ok == (!old(d.bad) && |D.DeflateBlock(old(d.State()), nvs)| + offset <= Product(chunks, MAX_PAYLOAD))
    ensures ok ==> d.State() == D.AfterBlock(old(d.State()), nvs)
    ensures ok ==> pieces != [] && Flatten(pieces) == D.DeflateBlock(old(d.State()), nvs)
    ensures ok ==> |pieces[0]| <= MAX_PAYLOAD - offset && forall i :: 0 <= i < |pieces| ==> |pieces[i]| <= MAX_PAYLOAD
  {
    hide D.DeflateBlock, D.AfterBlock, WellFormed, Chain, Size, Slot, Divides, Product, Flatten, Sum;
    var bufs := new Bufs.Reserved(MAX_PAYLOAD, chunks, offset);
    ok := d.DeflateHdBufs(bufs, nvs);
    if !ok { return false, []; }
    assert [] + D.DeflateBlock(old(d.State()), nvs) == D.DeflateBlock(old(d.State()), nvs);
    pieces := bufs.data[..bufs.cur + 1];
    forall i | 0 <= i < |pieces| ensures |pieces[i]| <= if i == 0 then bufs.firstRoom else bufs.chunkRoom {
      assert |bufs.data[i]| <= bufs.caps[i];
    }
  }

  /**
   * nghttp2_frame_pack_headers: the block goes into buffers of one payload each, after the priority field in
   * the first, and every buffer becomes a frame; `length` is that of all payloads.
   */
  method PackHeaders(d: HdDeflater, nvs: seq<D.Nv>, pri: Option<PriSpec>, flags: byte, streamId: nat, chunks: nat)
    returns (ok: bool, wire: Bytes, length: nat, ghost pieces: seq<Bytes>)
    requires d.Valid() && FieldsFit(nvs) && chunks > 0
    requires streamId < 0x8000_0000 && (pri.Some? ==> ValidPri(pri.value))
    modifies d`notify, d`min, d`bad, d.ctx, d.ctx.ring, d.ctx.ring.buffer
    ensures d.Valid() && d.bad == !ok
    ensures d.ctx.ring.buffer == old(d.ctx.ring.buffer) || fresh(d.ctx.ring.buffer)
    ensures ok == (!old(d.bad) && |D.DeflateBlock(old(d.State()), nvs)| + (if pri.Some? then PRIORITY_LENGTH else 0)
                                  <= Product(chunks, MAX_PAYLOAD))
    ensures ok ==> d.State() == D.AfterBlock(old(d.State()), nvs)
    ensures ok ==> pieces != [] && Flatten(pieces) == D.DeflateBlock(old(d.State()), nvs)
    ensures ok ==> length == |Flatten(pieces)| + if pri.Some? then PRIORITY_LENGTH else 0
    ensures ok ==> Sendable(Payloads(pieces, pri), streamId) && wire == Wire(Payloads(pieces, pri), 0, flags, streamId)
  {
    hide D.DeflateBlock, D.AfterBlock, WellFormed, Chain, Size, Slot, Divides, Wire, Product, Flatten, Payloads,
      Sendable;
    pieces := [];
    wire, length := [], 0;
    var offset := if pri.Some? then PRIORITY_LENGTH else 0;
    var filled;
    ok, filled := DeflatePieces(d, nvs, chunks, offset);
    if !ok { return; }
    PayloadsFit(filled, pri, streamId);
    pieces := filled;
    wire := PackHeadersShared(Payloads(filled, pri), flags, streamId);
    length := |Flatten(filled)| + offset;
  }

  /** session_headers_add_pad: the application may choose a padding, which goes into the first frame. */
  method PadHeaders(wire: Bytes, length: nat, padding: nat -> nat, ghost pieces: seq<Bytes>, ghost pri: Option<PriSpec>,
                    ghost flags: byte, ghost streamId: nat)
    returns (padded: Bytes, pad: nat)
    requires pieces != [] && (pri.Some? ==> ValidPri(pri.value)) && Sendable(Payloads(pieces, pri), streamId)
    requires wire == Wire(Payloads(pieces, pri), 0, flags, streamId)
    requires length == |Flatten(pieces)| + (if pri.Some? then PRIORITY_LENGTH else 0) && Choice(length, padding(length))
    ensures pad == padding(length) <= MAX_PADDING && Sendable(PadFirst(Payloads(pieces, pri), pad), streamId)
    ensures padded == Wire(PadFirst(Payloads(pieces, pri), pad), 0, FinalFlags(flags, pad), streamId)
  {
    hide Wire, Flatten;
    FirstIsPart(pieces);
    FirstPayload(pieces, pri);
    pad := padding(length);
    padded := AddPad(wire, pad, Payloads(pieces, pri), flags, streamId);
  }

  lemma FirstIsPart(pieces: seq<Bytes>)
    requires pieces != []
    ensures |pieces[0]| <= |Flatten(pieces)|
  {
    JoinFirst(pieces, pieces);
  }

  /** Reads the segments the transport delivers; `parts` are the pieces of the block, as they come. */
  method ReadSegments(segments: seq<Bytes>) returns (r: Reader, parts: seq<Bytes>)
    ensures r == Read(FRESH, Flatten(segments)) && r.block == Flatten(parts)
  {
    hide Read, Reading, Flatten;
    r, parts := FRESH, [];
    ReadingFresh();
    ReadNothing(r);
    FlattenNone();
    assert segments[..0] == [];
    for k := 0 to |segments|
      invariant Reading(r) && r == Read(FRESH, Flatten(segments[..k])) && r.block == Flatten(parts)
    {
      assert segments[..k + 1] == segments[..k] + [segments[k]];
      FlattenSnoc(segments[..k], segments[k]);
      ReadAppend(FRESH, Flatten(segments[..k]), segments[k]);
      var more;
      r, more := MemRecv(r, segments[k]);
      FlattenBoth(parts, more);
      parts := parts + more;
    }
    assert segments[..|segments|] == segments;
  }

  lemma {:induction false} FlattenBoth(a: seq<Bytes>, b: seq<Bytes>)
    ensures Flatten(a + b) == Flatten(a) + Flatten(b)
    decreases |b|
  {
    if b == [] {
      assert a + b == a;
      FlattenNone();
      assert Flatten(a) + [] == Flatten(a);
    } else {
      var k := |b| - 1;
      assert b == b[..k] + [b[k]] && a + b == (a + b[..k]) + [b[k]];
      FlattenBoth(a, b[..k]);
      FlattenSnoc(a + b[..k], b[k]);
      FlattenSnoc(b[..k], b[k]);
      assert Flatten(a) + Flatten(b[..k]) + b[k] == Flatten(a) + (Flatten(b[..k]) + b[k]);
    }
  }

  lemma ReadingFresh()
    ensures Reading(FRESH)
  {
  }

  /**
   * The header list, the priority, the stream and the flags arrive unchanged, and the two dynamic tables are
   * equal again, so that the next list may follow; `cut` is how the transport cuts the octets.
   */
  method Exchange(d: HdDeflater, i: HdInflater, nvs: seq<D.Nv>, pri: Option<PriSpec>, flags: byte, streamId: nat,
                  chunks: nat, padding: nat -> nat, cut: Bytes -> seq<Bytes>)
    returns (r: Reader, pad: nat, received: seq<Field>)
    requires d.Valid() && i.Valid() && i.Resting() && !d.bad && !i.bad && HeaderExchange.Apart(d, i)
    requires Linked(d.State(), i.State()) && FieldsFit(nvs) && chunks > 0
    requires streamId < 0x8000_0000 && (pri.Some? ==> ValidPri(pri.value))
    requires Masked(flags) == flags && Bit(flags, END_HEADERS) && Bit(flags, PRIORITY) == pri.Some?
    requires !Bit(flags, PADDED)
    requires |D.DeflateBlock(d.State(), nvs)| + (if pri.Some? then PRIORITY_LENGTH else 0)
             <= Product(chunks, MAX_PAYLOAD)
    requires forall n: nat :: Choice(n, padding(n))
    requires forall w: Bytes :: Flatten(cut(w)) == w
    modifies d`notify, d`min, d`bad, d.ctx, d.ctx.ring, d.ctx.ring.buffer
    modifies i`m, i`bad, i.ctx, i.ctx.ring, i.ctx.ring.buffer
    ensures d.Valid() && i.Valid() && i.Resting() && !d.bad && !i.bad && HeaderExchange.Apart(d, i)
    ensures r.phase == Done && r.pri == pri && r.flags == FinalFlags(flags, pad) && r.streamId == streamId
    ensures |received| == |nvs| && forall k :: 0 <= k < |nvs| ==> received[k] == D.FieldOf(nvs[k])
    ensures Linked(d.State(), i.State()) && d.ctx.Table() == i.ctx.Table() && d.ctx.max == i.ctx.max
  {
    hide D.DeflateBlock, D.AfterBlock, I.Run, Linked, View, Sound, WellFormed, Chain, Size, Slot, Divides, Wire,
      Product, Read, Bit, Masked, PadFirst, Payloads, Flatten, AtLeastOne;
    ghost var start, end := d.State(), i.State();
    ghost var after := BlockRoundTrip(start, end, nvs);
    var ok, wire;
    ghost var pieces;
    var length;
    ok, wire, length, pieces := PackHeaders(d, nvs, pri, flags, streamId, chunks);
    assert Choice(length, padding(length));
    wire, pad := PadHeaders(wire, length, padding, pieces, pri, flags, streamId);
    assert i.State() == end && i.Valid();
    ghost var dstate := d.State();
    var segments := cut(wire);
    var parts;
    r, parts := ReadSegments(segments);
    PaddedFlags(flags, pad);
    Reassembled(pieces, pri, pad, FinalFlags(flags, pad), streamId);
    AtLeastOnePiece(parts);
    var headers;
    ok, headers := InflateBlock(i, AtLeastOne(parts));
    assert d.State() == dstate && d.Valid();
    received := seq(|headers|, k requires 0 <= k < |headers| => headers[k].field);
    HeaderExchange.ViewTable(i.m, i.ctx.Table(), i.ctx.max);
  }

  lemma PaddedFlags(flags: byte, pad: nat)
    requires Masked(flags) == flags && !Bit(flags, PADDED)
    ensures var f := FinalFlags(flags, pad);
            && Masked(f) == f && Bit(f, END_HEADERS) == Bit(flags, END_HEADERS)
            && Bit(f, PRIORITY) == Bit(flags, PRIORITY)
            && Bit(f, PADDED) == (pad > 0)
  {
    PaddedBits(flags);
    PaddedMask(flags);
    hide Bit, Masked;
  }

  /** A header block without any fields is still one piece of input. */
  function AtLeastOne(parts: seq<Bytes>): seq<Bytes> { if parts == [] then [[]] else parts }

  lemma AtLeastOnePiece(parts: seq<Bytes>)
    ensures AtLeastOne(parts) != [] && Flatten(AtLeastOne(parts)) == Flatten(parts)
  {
    FlattenNone();
    OnePiece([]);
  }

  lemma OnePiece(b: Bytes)
    ensures Flatten([b]) == b
  {
    assert [b] == [] + [b];
    FlattenSnoc([], b);
    assert [] + b == b;
  }
}
