/**
 * nghttp2_bufs (lib/nghttp2_buf.c): a chain of byte buffers written at one place, `cur`.  Buffer i of the
 * chain has `caps[i]` bytes of room in all and holds `data[i]`; `hold` is the byte just past the written
 * part of the current buffer, which the `hold` operations set without advancing.
 */
module Buffers {
  import opened Bytes

  function Flatten(d: seq<Bytes>): Bytes
  {
    if d == [] then [] else Flatten(d[..|d| - 1]) + d[|d| - 1]
  }

  lemma FlattenSnoc(d: seq<Bytes>, x: Bytes)
    ensures Flatten(d + [x]) == Flatten(d) + x
  {
    assert (d + [x])[..|d|] == d;
  }

  function Sum(ns: seq<nat>): nat
  {
    if ns == [] then 0 else ns[0] + Sum(ns[1..])
  }

  /** n buffers of `room` bytes. */
  function Product(n: nat, room: nat): nat
  {
    if n == 0 then 0 else room + Product(n - 1, room)
  }

  class Bufs {
    /** Room in a newly allocated buffer: chunk_length less the offset kept free before it. */
    const chunkRoom: nat
    /** Room in the first buffer, which may start with a field of fixed size. */
    const firstRoom: nat
    const maxChunk: nat
    var caps: seq<nat>
    var data: seq<Bytes>
    var cur: nat
    var hold: byte

    ghost predicate Valid()
      reads this
    {
      && |caps| == |data| <= maxChunk && cur < |caps| && chunkRoom > 0
      && (forall i :: 0 <= i < |caps| ==> |data[i]| <= caps[i] <= if i == 0 then firstRoom else chunkRoom)
      && (forall i :: cur < i < |caps| ==> data[i] == [] && caps[i] > 0)
    }

    /** Everything written so far, in order. */
    ghost function Contents(): Bytes
      requires cur < |data|
      reads this
    {
      Flatten(data[..cur + 1])
    }

    /** nghttp2_bufs_init3: one empty buffer. */
    constructor (chunkRoom: nat, maxChunk: nat)
      requires chunkRoom > 0 && maxChunk > 0
      ensures Valid() && Contents() == [] && Remaining() == Product(maxChunk, chunkRoom)
      ensures this.chunkRoom == chunkRoom && this.maxChunk == maxChunk
    {
      this.chunkRoom, this.firstRoom, this.maxChunk := chunkRoom, chunkRoom, maxChunk;
      caps, data, cur, hold := [chunkRoom], [[]], 0, 0;
      new;
      assert data[..1] == [] + [[]];
      FlattenSnoc([], []);
    }

    /** The same with `taken` bytes of the first buffer kept free. */
    constructor Reserved(chunkRoom: nat, maxChunk: nat, taken: nat)
      requires chunkRoom > 0 && maxChunk > 0 && taken <= chunkRoom
      ensures Valid() && Contents() == [] && Remaining() == Product(maxChunk, chunkRoom) - taken
      ensures this.chunkRoom == chunkRoom && this.maxChunk == maxChunk && this.firstRoom == chunkRoom - taken
    {
      this.chunkRoom, this.firstRoom, this.maxChunk := chunkRoom, chunkRoom - taken, maxChunk;
      caps, data, cur, hold := [chunkRoom - taken], [[]], 0, 0;
      new;
      assert data[..1] == [] + [[]];
      FlattenSnoc([], []);
    }

    function Avail(): nat
      requires cur < |data| && |caps| == |data| && |data[cur]| <= caps[cur]
      reads this
    {
      caps[cur] - |data[cur]|
    }

    /** Bytes that can still be written: here, in linked buffers, and in buffers not yet allocated. */
    ghost function Remaining(): nat
      requires Valid()
      reads this
    {
      Avail() + Sum(caps[cur + 1..]) + Product(maxChunk - |caps|, chunkRoom)
    }

    /** bufs_alloc_chain; false is NGHTTP2_ERR_BUFFER_ERROR. */
    method AllocChain() returns (ok: bool)
      requires Valid() && Avail() == 0
      modifies this`caps, this`data, this`cur
      ensures Valid() && Contents() == old(Contents()) && Remaining() == old(Remaining())
      ensures ok ==> Avail() > 0 && cur == old(cur) + 1
      ensures !ok ==> Remaining() == 0
    {
      if cur + 1 < |caps| {
        assert caps[cur + 1..][1..] == caps[cur + 2..];
        cur := cur + 1;
      } else {
        assert caps[cur + 1..] == [];
        if maxChunk == |caps| {
          return false;
        }
        caps, data := caps + [chunkRoom], data + [[]];
        cur := cur + 1;
        assert caps[cur + 1..] == [];
      }
      assert data[..cur + 1] == old(data[..cur + 1]) + [[]];
      FlattenSnoc(old(data[..cur + 1]), []);
      return true;
    }

    /** Copies bytes that fit into the current buffer. */
    method Write(bs: Bytes)
      requires Valid() && |bs| <= Avail()
      modifies this`data
      ensures Valid() && Contents() == old(Contents()) + bs
      ensures Avail() == old(Avail()) - |bs| && Remaining() == old(Remaining()) - |bs|
    {
      data := data[cur := data[cur] + bs];
      WriteFlattens(old(data), cur, bs);
    }

    /** nghttp2_bufs_add: succeeds exactly when the bytes fit; otherwise it has filled every buffer. */
    method Add(bs: Bytes) returns (ok: bool)
      requires Valid()
      modifies this`caps, this`data, this`cur
      ensures Valid() && ok == (|bs| <= old(Remaining()))
      ensures ok ==> Contents() == old(Contents()) + bs && Remaining() == old(Remaining()) - |bs|
      ensures !ok ==> Contents() == old(Contents()) + bs[..old(Remaining())]
    {
      var done := 0;
      while done < |bs|
        invariant Valid() && 0 <= done <= |bs|
        invariant Contents() == old(Contents()) + bs[..done] && Remaining() == old(Remaining()) - done
        decreases |bs| - done, maxChunk - cur
      {
        var n := Min(Avail(), |bs| - done);
        if n == 0 {
          var more := AllocChain();
          if !more {
            return false;
          }
        } else {
          Write(bs[done..done + n]);
          assert bs[..done] + bs[done..done + n] == bs[..done + n];
          done := done + n;
        }
      }
      assert bs[..done] == bs;
      return true;
    }

    /** bufs_ensure_addb. */
    method EnsureAddB() returns (ok: bool)
      requires Valid()
      modifies this`caps, this`data, this`cur
      ensures Valid() && Contents() == old(Contents()) && Remaining() == old(Remaining())
      ensures ok ==> Avail() > 0
      ensures !ok ==> Remaining() == 0
    {
      ok := true;
      if Avail() == 0 {
        ok := AllocChain();
      }
    }

    /** nghttp2_bufs_addb. */
    method AddB(b: byte) returns (ok: bool)
      requires Valid()
      modifies this`caps, this`data, this`cur
      ensures Valid() && ok == (old(Remaining()) > 0)
      ensures Contents() == old(Contents()) + if ok then [b] else []
      ensures Remaining() == old(Remaining()) - if ok then 1 else 0
    {
      ok := EnsureAddB();
      if ok {
        Write([b]);
      }
    }

    /** nghttp2_bufs_addb_hold. */
    method AddBHold(b: byte) returns (ok: bool)
      requires Valid()
      modifies this
      ensures Valid() && Contents() == old(Contents()) && Remaining() == old(Remaining())
      ensures ok == (old(Remaining()) > 0)
      ensures ok ==> Avail() > 0 && hold == b
    {
      ok := EnsureAddB();
      if ok {
        hold := b;
      }
    }

    /** nghttp2_bufs_fast_orb_hold: `*last |= b`. */
    method FastOrBHold(b: byte)
      requires Valid() && Avail() > 0
      modifies this`hold
      ensures hold == Or(old(hold), b)
    {
      hold := Or(hold, b);
    }

    /** nghttp2_bufs_fast_orb: `*last++ |= b`. */
    method FastOrB(b: byte)
      requires Valid() && Avail() > 0
      modifies this`data
      ensures Valid() && Contents() == old(Contents()) + [Or(hold, b)]
      ensures Avail() == old(Avail()) - 1 && Remaining() == old(Remaining()) - 1
    {
      Write([Or(hold, b)]);
    }
  }

  lemma WriteFlattens(d: seq<Bytes>, cur: nat, bs: Bytes)
    requires cur < |d|
    ensures Flatten(d[cur := d[cur] + bs][..cur + 1]) == Flatten(d[..cur + 1]) + bs
  {
    var e := d[cur := d[cur] + bs];
    assert e[..cur + 1][..cur] == d[..cur] && d[..cur + 1][..cur] == d[..cur];
    assert Flatten(d[..cur]) + d[cur] + bs == Flatten(d[..cur]) + (d[cur] + bs);
  }

  // ---- bitwise or ---------------------------------------------------------

  function OrBits(a: seq<bit>, b: seq<bit>): (r: seq<bit>)
    requires |a| == |b|
    ensures |r| == |a| && forall i :: 0 <= i < |a| ==> r[i] == if a[i] == 1 || b[i] == 1 then 1 else 0
  {
    seq(|a|, i requires 0 <= i < |a| => if a[i] == 1 || b[i] == 1 then 1 else 0)
  }

  /** `a | b` on bytes. */
  function Or(a: byte, b: byte): (r: byte)
    ensures BitsOf(r, 8) == OrBits(BitsOf(a, 8), BitsOf(b, 8))
  {
    hide BitsOf, ValueOf;
    var bits := OrBits(BitsOf(a, 8), BitsOf(b, 8));
    ValueBits(bits);
    assert Shl(1, 8) == 256 by { assert Shl(1, 4) == 16; }
    ValueOf(bits)
  }
}
