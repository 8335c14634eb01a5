/** nghttp2_hd_deflater (lib/nghttp2_hd.c) writing into a buffer chain. */
module DeflaterObject {
  import opened Bytes
  import opened IntCodec
  import opened Huffman
  import opened HuffmanEncoder
  import opened StaticTable
  import opened DynamicTable
  import opened RingBuffer
  import opened TableObject
  import opened Buffers
  import D = Deflate

  // ---- the 16-byte scratch buffer always suffices for a size_t ------------

  lemma ScratchSuffices(first: byte, n: nat, prefix: nat)
    requires ValidPrefix(prefix) && n < SIZE_WRAP
    ensures |EncodeInt(first, n, prefix)| <= 16
  {
    hide LowBits;
    if n >= PrefixMask(prefix) {
      assert Pow128(5) == 128 * (128 * (128 * (128 * 128)));
      assert Pow128(10) > SIZE_WRAP;
      DigitCount(n - PrefixMask(prefix), 10);
    }
  }

  /** An integer through the scratch buffer: emit_table_size, emit_indexed_block and the heads of literals. */
  method EmitInt(bufs: Bufs, first: byte, n: nat, prefix: nat) returns (ok: bool)
    requires bufs.Valid() && ValidPrefix(prefix) && n < SIZE_WRAP
    modifies bufs
    ensures bufs.Valid() && ok == (|EncodeInt(first, n, prefix)| <= old(bufs.Remaining()))
    ensures ok ==> bufs.Contents() == old(bufs.Contents()) + EncodeInt(first, n, prefix)
    ensures ok ==> bufs.Remaining() == old(bufs.Remaining()) - |EncodeInt(first, n, prefix)|
  {
    hide EncodeInt, Flatten, Sum, Product;
    ScratchSuffices(first, n, prefix);
    var blocklen := CountEncodedLength(n, prefix);
    assert blocklen == |EncodeInt(first, n, prefix)|;
    if 16 < blocklen {
      return false;
    }
    var sb := new byte[16](_ => 0);
    sb[0] := first;
    var len := EncodeLength(sb, n, prefix);
    ok := bufs.Add(sb[..blocklen]);
  }

  /** emit_string. */
  method EmitString(bufs: Bufs, s: Bytes) returns (ok: bool)
    requires bufs.Valid() && |s| < SIZE_WRAP
    modifies bufs
    ensures bufs.Valid() && ok == (|D.EmitString(s)| <= old(bufs.Remaining()))
    ensures ok ==> bufs.Contents() == old(bufs.Contents()) + D.EmitString(s)
    ensures ok ==> bufs.Remaining() == old(bufs.Remaining()) - |D.EmitString(s)|
  {
    hide EncodeInt, HuffEncode, Flatten, Sum, Product;
    var enclen := HuffEncodeCount(s);
    var huffman := enclen < |s|;
    if !huffman {
      enclen := |s|;
    }
    ok := EmitInt(bufs, if huffman then 0x80 else 0, enclen, 7);
    if ok {
      ok := EmitBody(bufs, huffman, s);
    }
  }

  method EmitBody(bufs: Bufs, huffman: bool, s: Bytes) returns (ok: bool)
    requires bufs.Valid()
    modifies bufs
    ensures bufs.Valid()
    ensures var body := if huffman then HuffEncode(s) else s;
            && ok == (|body| <= old(bufs.Remaining()))
            && (ok ==> bufs.Contents() == old(bufs.Contents()) + body
                       && bufs.Remaining() == old(bufs.Remaining()) - |body|)
  {
    hide HuffEncode;
    if huffman {
      ok := HuffEncodeInto(bufs, s);
    } else {
      ok := bufs.Add(s);
    }
  }

  class HdDeflater {
    const ctx: HdContext
    const cap: nat
    var min: nat
    var notify: bool
    var bad: bool

    ghost predicate Valid()
      reads this, ctx, ctx.ring, ctx.ring.buffer
    {
      ctx.Valid() && ctx.hasMap && min <= UINT32_MAX
    }

    ghost function State(): D.Deflater
      reads this, ctx, ctx.ring
    {
      D.Deflater(ctx.Table(), ctx.max, cap, min, notify)
    }

    /** nghttp2_hd_deflate_init2. */
    constructor (cap: nat, hashOf: Bytes -> nat)
      ensures Valid() && !bad && State() == D.InitDeflater(cap)
      ensures fresh(ctx) && fresh(ctx.ring) && fresh(ctx.ring.buffer)
    {
      ctx := new HdContext(true, hashOf);
      this.cap := cap;
      min, notify, bad := UINT32_MAX, cap < D.DEFAULT_TABLE_SIZE, false;
      new;
      if cap < D.DEFAULT_TABLE_SIZE {
        ctx.max := cap;
      }
    }

    /** nghttp2_hd_deflate_change_table_size. */
    method ChangeTableSize(settings: nat)
      requires Valid() && settings <= UINT32_MAX
      modifies this`min, this`notify, ctx, ctx.ring
      ensures Valid() && State() == D.ChangeSize(old(State()), settings) && ctx.ring.buffer == old(ctx.ring.buffer)
    {
      var next := Min(settings, cap);
      ctx.max := next;
      min := Min(min, next);
      notify := true;
      ctx.Shrink();
    }

    /** deflate_nv. */
    method DeflateNv(bufs: Bufs, nv: D.Nv) returns (ok: bool)
      requires Valid() && bufs.Valid() && |nv.name| < SIZE_WRAP && |nv.value| < SIZE_WRAP
      modifies bufs, ctx, ctx.ring, ctx.ring.buffer
      ensures Valid() && bufs.Valid() && (ctx.ring.buffer == old(ctx.ring.buffer) || fresh(ctx.ring.buffer))
      ensures ctx.max == old(ctx.max) && ctx.Table() == D.TableAfter(old(ctx.Table()), ctx.max, nv)
      ensures var bytes := D.DeflateNv(old(ctx.Table()), ctx.max, nv);
              && ok == (|bytes| <= old(bufs.Remaining()))
              && (ok ==> bufs.Contents() == old(bufs.Contents()) + bytes
                         && bufs.Remaining() == old(bufs.Remaining()) - |bytes|)
    {
      hide D.IndexingMode, D.Search, D.EmitString, EncodeInt, Insert, Flatten, Sum, Product, Chain, WellFormed, Size,
        Slot, Divides;
      var f := D.FieldOf(nv);
      var mode := D.IndexingMode(nv, ctx.max);
      var idx, exact := ctx.SearchTable(f, mode.NeverIndexing?);
      IndexFits(idx);
      if exact {
        ok := EmitInt(bufs, 0x80, idx + 1, 7);
        return;
      }
      if mode.WithIndexing? {
        ctx.AddIncremental(f);
      }
      if idx == -1 {
        ok := EmitNewName(bufs, nv, mode);
      } else {
        ok := EmitIndexedName(bufs, idx, nv.value, mode);
      }
    }

    /** The size updates at the head of a block. */
    method EmitSizeUpdates(bufs: Bufs) returns (ok: bool)
      requires Valid() && bufs.Valid()
      modifies bufs, this`notify, this`min
      ensures Valid() && bufs.Valid()
      ensures !notify && min == if old(notify) then UINT32_MAX else old(min)
      ensures var bytes := D.SizeUpdates(old(State()));
              && ok == (|bytes| <= old(bufs.Remaining()))
              && (ok ==> bufs.Contents() == old(bufs.Contents()) + bytes
                         && bufs.Remaining() == old(bufs.Remaining()) - |bytes|)
    {
      hide EncodeInt, Flatten, Sum, Product, Chain, WellFormed, Size, Slot, Divides;
      ok := true;
      if notify {
        var pending := min;
        notify := false;
        min := UINT32_MAX;
        if ctx.max > pending {
          ok := EmitInt(bufs, 0x20, pending, 5);
          if !ok {
            return;
          }
        }
        ok := EmitInt(bufs, 0x20, ctx.max, 5);
      }
    }

    /** nghttp2_hd_deflate_hd_bufs: succeeds exactly when the block fits; a failure is final. */
    method DeflateHdBufs(bufs: Bufs, nvs: seq<D.Nv>) returns (ok: bool)
      requires Valid() && bufs.Valid()
      requires forall i :: 0 <= i < |nvs| ==> |nvs[i].name| < SIZE_WRAP && |nvs[i].value| < SIZE_WRAP
      modifies this`notify, this`min, this`bad, bufs, ctx, ctx.ring, ctx.ring.buffer
      ensures Valid() && bufs.Valid() && (ctx.ring.buffer == old(ctx.ring.buffer) || fresh(ctx.ring.buffer))
      ensures ok == (!old(bad) && |D.DeflateBlock(old(State()), nvs)| <= old(bufs.Remaining()))
      ensures ok ==> bufs.Contents() == old(bufs.Contents()) + D.DeflateBlock(old(State()), nvs)
      ensures ok ==> State() == D.AfterBlock(old(State()), nvs)
      ensures bad == !ok
    {
      hide D.SizeUpdates, D.DeflateList, D.TableAfterList, Flatten, Sum, Product, Chain, WellFormed, Size, Slot,
        Divides;
      if bad {
        return false;
      }
      ok := EmitSizeUpdates(bufs);
      if !ok {
        bad := true;
        return;
      }
      ok := DeflateFields(bufs, nvs);
      bad := !ok;
    }

    /** The loop over the header list. */
    method DeflateFields(bufs: Bufs, nvs: seq<D.Nv>) returns (ok: bool)
      requires Valid() && bufs.Valid()
      requires forall i :: 0 <= i < |nvs| ==> |nvs[i].name| < SIZE_WRAP && |nvs[i].value| < SIZE_WRAP
      modifies bufs, ctx, ctx.ring, ctx.ring.buffer
      ensures Valid() && bufs.Valid() && (ctx.ring.buffer == old(ctx.ring.buffer) || fresh(ctx.ring.buffer))
      ensures ctx.max == old(ctx.max)
      ensures var bytes := D.DeflateList(old(ctx.Table()), ctx.max, nvs);
              && ok == (|bytes| <= old(bufs.Remaining()))
              && (ok ==> bufs.Contents() == old(bufs.Contents()) + bytes
                         && ctx.Table() == D.TableAfterList(old(ctx.Table()), ctx.max, nvs))
    {
      hide D.DeflateNv, D.TableAfter, Flatten, Sum, Product, Chain, WellFormed, Size, Slot, Divides;
      ghost var max := ctx.max;
      ghost var all := D.DeflateList(ctx.Table(), max, nvs);
      ghost var before, room := bufs.Contents(), bufs.Remaining();
      assert nvs[0..] == nvs;
      for i := 0 to |nvs|
        invariant Valid() && bufs.Valid() && ctx.max == max
        invariant ctx.ring.buffer == old(ctx.ring.buffer) || fresh(ctx.ring.buffer)
        invariant D.TableAfterList(ctx.Table(), max, nvs[i..]) == D.TableAfterList(old(ctx.Table()), max, nvs)
        invariant bufs.Contents() + D.DeflateList(ctx.Table(), max, nvs[i..]) == before + all
        invariant |bufs.Contents()| + bufs.Remaining() == |before| + room
      {
        ghost var t := ctx.Table();
        assert nvs[i..][1..] == nvs[i + 1..] && nvs[i..][0] == nvs[i];
        assert D.DeflateList(t, max, nvs[i..])
            == D.DeflateNv(t, max, nvs[i]) + D.DeflateList(D.TableAfter(t, max, nvs[i]), max, nvs[i + 1..]);
        assert |bufs.Contents() + D.DeflateList(t, max, nvs[i..])| == |before + all|;
        ok := DeflateNv(bufs, nvs[i]);
        if !ok {
          return;
        }
      }
      assert nvs[|nvs|..] == [];
      assert bufs.Contents() + [] == bufs.Contents();
      ok := true;
    }

    lemma IndexFits(idx: int)
      requires Valid() && idx < IndexLimit(ctx.Table())
      ensures idx + 1 < SIZE_WRAP
    {
      CountBySize(ctx.Table());
    }
  }

  /** emit_indname_block. */
  method EmitIndexedName(bufs: Bufs, idx: nat, value: Bytes, mode: D.Mode) returns (ok: bool)
    requires bufs.Valid() && |value| < SIZE_WRAP && idx + 1 < SIZE_WRAP
    modifies bufs
    ensures bufs.Valid()
    ensures var bytes := D.EmitIndexedName(idx, value, mode);
            && ok == (|bytes| <= old(bufs.Remaining()))
            && (ok ==> bufs.Contents() == old(bufs.Contents()) + bytes
                       && bufs.Remaining() == old(bufs.Remaining()) - |bytes|)
  {
    hide D.EmitString, EncodeInt, Flatten, Sum, Product;
    ok := EmitInt(bufs, D.FirstByteOf(mode), idx + 1, D.NamePrefix(mode));
    if ok {
      ok := EmitString(bufs, value);
    }
  }

  /** emit_newname_block. */
  method EmitNewName(bufs: Bufs, nv: D.Nv, mode: D.Mode) returns (ok: bool)
    requires bufs.Valid() && |nv.name| < SIZE_WRAP && |nv.value| < SIZE_WRAP
    modifies bufs
    ensures bufs.Valid()
    ensures var bytes := D.EmitNewName(nv, mode);
            && ok == (|bytes| <= old(bufs.Remaining()))
            && (ok ==> bufs.Contents() == old(bufs.Contents()) + bytes
                       && bufs.Remaining() == old(bufs.Remaining()) - |bytes|)
  {
    hide D.EmitString, Flatten, Sum, Product;
    ok := bufs.AddB(D.FirstByteOf(mode));
    if ok {
      ok := EmitString(bufs, nv.name);
    }
    if ok {
      ok := EmitString(bufs, nv.value);
    }
  }
}
