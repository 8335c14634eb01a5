/**
 * inflate_header_block of lib/nghttp2_session.c: a header block arrives in pieces, in whatever sizes the
 * transport delivers and across CONTINUATION frames.  The fields, the table and the verdict depend only on
 * the concatenation of the pieces.
 */
module HeaderBlock {
  import opened Bytes
  import opened TableObject
  import opened Inflate
  import opened InflateRuns
  import opened InflaterObject
  import opened Buffers

  lemma {:induction false} RunAfter(st: Inflater, inp: Bytes, i: nat, j: nat, mid: Inflater, out: seq<Header>)
    requires i <= j <= |inp| && Run(st, inp[..i]) == Running(mid, out)
    ensures Run(st, inp[..j]) == Prepend(out, Run(mid, inp[i..][..j - i]))
  {
    hide Step;
    assert inp[..j] == inp[..i] + inp[i..][..j - i];
    RunAppend(st, inp[..i], inp[i..][..j - i]);
  }

  /** One piece: the loop around nghttp2_hd_inflate_hd_nv. */
  method InflatePiece(inflater: HdInflater, inp: Bytes, final: bool) returns (ok: bool, headers: seq<Header>)
    requires inflater.Valid() && inflater.Resting() && !inflater.bad
    modifies inflater`m, inflater`bad, inflater.ctx, inflater.ctx.ring, inflater.ctx.ring.buffer
    ensures inflater.Valid() && inflater.bad == !ok
    ensures inflater.ctx.ring.buffer == old(inflater.ctx.ring.buffer) || fresh(inflater.ctx.ring.buffer)
    ensures var o := Run(old(inflater.State()), inp);
            && headers == o.out
            && ok == (o.Running? && (final ==> AtBoundary(o.st)))
            && (ok ==> inflater.Resting() && o.st == inflater.State())
  {
    hide Run, View, Sound, WellFormed;
    ghost var start := inflater.State();
    headers := [];
    var i := 0;
    RunNothing(start);
    assert inp[..0] == [];
    while true
      invariant inflater.Valid() && inflater.Resting() && !inflater.bad && 0 <= i <= |inp|
      invariant inflater.ctx.ring.buffer == old(inflater.ctx.ring.buffer) || fresh(inflater.ctx.ring.buffer)
      invariant Run(start, inp[..i]) == Running(inflater.State(), headers)
      decreases |inp| - i
    {
      ghost var mid := inflater.State();
      var r := inflater.InflateHdNv(inp[i..], final);
      RunAfter(start, inp, i, |inp|, mid, headers);
      assert inp[..|inp|] == inp && inp[i..][..|inp| - i] == inp[i..];
      match r {
        case Failed =>
          assert headers + [] == headers;
          return false, headers;
        case Consumed =>
          assert headers + [] == headers;
          return true, headers;
        case Emitted(h, used) =>
          RunAfter(start, inp, i, i + used, mid, headers);
          headers, i := headers + [h], i + used;
      }
    }
  }

  /** A whole block in pieces, the last one marked final. */
  method InflateBlock(inflater: HdInflater, pieces: seq<Bytes>) returns (ok: bool, headers: seq<Header>)
    requires inflater.Valid() && inflater.Resting() && !inflater.bad && pieces != []
    modifies inflater`m, inflater`bad, inflater.ctx, inflater.ctx.ring, inflater.ctx.ring.buffer
    ensures inflater.Valid() && inflater.bad == !ok
    ensures inflater.ctx.ring.buffer == old(inflater.ctx.ring.buffer) || fresh(inflater.ctx.ring.buffer)
    ensures var o := Run(old(inflater.State()), Flatten(pieces));
            && headers == o.out
            && ok == (o.Running? && AtBoundary(o.st))
            && (ok ==> inflater.Resting() && inflater.State() == EndHeaders(o.st))
  {
    hide Run, View, Sound, WellFormed;
    ghost var start := inflater.State();
    headers := [];
    RunNothing(start);
    assert pieces[..0] == [];
    for k := 0 to |pieces|
      invariant inflater.Valid() && inflater.Resting() && !inflater.bad
      invariant inflater.ctx.ring.buffer == old(inflater.ctx.ring.buffer) || fresh(inflater.ctx.ring.buffer)
      invariant Run(start, Flatten(pieces[..k])) == Running(inflater.State(), headers)
      invariant k == |pieces| ==> AtBoundary(inflater.State())
    {
      ghost var mid, before := inflater.State(), headers;
      assert pieces[..k + 1] == pieces[..k] + [pieces[k]];
      FlattenSnoc(pieces[..k], pieces[k]);
      RunAppend(start, Flatten(pieces[..k]), pieces[k]);
      var more;
      ok, more := InflatePiece(inflater, pieces[k], k + 1 == |pieces|);
      headers := headers + more;
      if !ok {
        FailedPiece(start, pieces, k, mid, before);
        return;
      }
    }
    assert pieces[..|pieces|] == pieces;
    inflater.EndOfHeaders();
    ok := true;
  }

  /** A refused piece refuses the block; so does a last piece that stops in the middle of a field. */
  lemma FailedPiece(start: Inflater, pieces: seq<Bytes>, k: nat, mid: Inflater, before: seq<Header>)
    requires k < |pieces| && Run(start, Flatten(pieces[..k])) == Running(mid, before)
    ensures var o := Run(mid, pieces[k]);
            if k + 1 == |pieces| then Run(start, Flatten(pieces)) == Prepend(before, o)
            else o.Rejected? ==> Run(start, Flatten(pieces)) == Prepend(before, o)
  {
    hide Step;
    var o := Run(mid, pieces[k]);
    assert pieces[..k + 1] == pieces[..k] + [pieces[k]];
    FlattenSnoc(pieces[..k], pieces[k]);
    RunAppend(start, Flatten(pieces[..k]), pieces[k]);
    if k + 1 == |pieces| {
      assert pieces[..k + 1] == pieces;
    } else if o.Rejected? {
      RejectedStays(start, pieces, k + 1);
    }
  }

  lemma {:induction false} RejectedStays(start: Inflater, pieces: seq<Bytes>, k: nat)
    requires k <= |pieces| && Run(start, Flatten(pieces[..k])).Rejected?
    ensures Run(start, Flatten(pieces)) == Run(start, Flatten(pieces[..k]))
    decreases |pieces| - k
  {
    hide Run;
    if k == |pieces| {
      assert pieces[..k] == pieces;
    } else {
      assert pieces[..k + 1] == pieces[..k] + [pieces[k]];
      FlattenSnoc(pieces[..k], pieces[k]);
      RunAppend(start, Flatten(pieces[..k]), pieces[k]);
      RejectedStays(start, pieces, k + 1);
    }
  }
}
