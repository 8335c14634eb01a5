/** The deflater and inflater objects joined: a header list goes through a buffer chain and comes out again. */
module HeaderExchange {
  import opened Bytes
  import opened StaticTable
  import opened DynamicTable
  import opened RingBuffer
  import opened TableObject
  import opened Buffers
  import opened DeflaterObject
  import opened InflaterObject
  import opened HeaderBlock
  import opened HeaderSync
  import D = Deflate
  import I = Inflate

  /** The two ends share no memory. */
  ghost predicate Apart(d: HdDeflater, i: HdInflater)
    reads d.ctx.ring, i.ctx.ring
  {
    d.ctx != i.ctx && d.ctx.ring != i.ctx.ring && d.ctx.ring.buffer != i.ctx.ring.buffer
  }

  /**
   * Deflates into a chain of buffers of any size with room for the block, then inflates the buffers one by
   * one: the fields arrive unchanged and the dynamic tables are equal again.
   */
  method Transfer(d: HdDeflater, i: HdInflater, nvs: seq<D.Nv>, room: nat, chunks: nat) returns (received: seq<Field>)
    requires d.Valid() && i.Valid() && i.Resting() && !d.bad && !i.bad && Apart(d, i)
    requires Linked(d.State(), i.State()) && FieldsFit(nvs)
    requires room > 0 && chunks > 0 && |D.DeflateBlock(d.State(), nvs)| <= Product(chunks, room)
    modifies d`notify, d`min, d`bad, d.ctx, d.ctx.ring, d.ctx.ring.buffer
    modifies i`m, i`bad, i.ctx, i.ctx.ring, i.ctx.ring.buffer
    ensures d.Valid() && i.Valid() && i.Resting() && !d.bad && !i.bad && Apart(d, i)
    ensures |received| == |nvs| && forall k :: 0 <= k < |nvs| ==> received[k] == D.FieldOf(nvs[k])
    ensures Linked(d.State(), i.State()) && d.ctx.Table() == i.ctx.Table() && d.ctx.max == i.ctx.max
  {
    hide D.DeflateBlock, D.AfterBlock, I.Run, Linked, View, Sound, WellFormed, Chain, Size, Slot, Divides;
    ghost var start, end := d.State(), i.State();
    ghost var after := BlockRoundTrip(start, end, nvs);
    ghost var max := d.ctx.max;
    var bufs := new Bufs(room, chunks);
    var ok := d.DeflateHdBufs(bufs, nvs);
    assert i.State() == end && i.Valid();
    var pieces := bufs.data[..bufs.cur + 1];
    assert [] + D.DeflateBlock(start, nvs) == D.DeflateBlock(start, nvs);
    ghost var dstate := d.State();
    var headers;
    ok, headers := InflateBlock(i, pieces);
    assert d.State() == dstate && d.Valid();
    received := seq(|headers|, k requires 0 <= k < |headers| => headers[k].field);
    ViewTable(i.m, i.ctx.Table(), i.ctx.max);
  }

  lemma ViewTable(m: Members, table: Table, max: nat)
    ensures View(m, table, max).table == table && View(m, table, max).max == max
  {
  }
}
