/** nghttp2_hd_huff_encode (lib/nghttp2_hd_huffman.c): codewords packed into a chain of buffers. */
module HuffmanEncoder {
  import opened Bytes
  import opened HuffmanTable
  import opened Huffman
  import opened Buffers

  function Zeros(n: nat): (z: seq<bit>)
    ensures |z| == n
  {
    seq(n, _ => 0)
  }

  lemma {:induction false} ZeroBits(n: nat)
    ensures BitsOf(0, n) == Zeros(n)
  {
    if n > 0 {
      ZeroBits(n - 1);
    }
  }

  /** A number below 2^n has only zeros above its n low bits. */
  lemma {:induction false} LeadingZeros(v: nat, n: nat, k: nat)
    requires v < Shl(1, n)
    ensures BitsOf(v, k + n) == Zeros(k) + BitsOf(v, n)
  {
    BitsOfSplit(v, k + n, n);
    ShrOfSmall(v, n);
    ZeroBits(k);
  }

  /** Filling open bits: the open part of `a` and the closed part of `b` are zero. */
  lemma OrFills(a: byte, b: byte, p: seq<bit>, q: seq<bit>)
    requires |p| + |q| == 8
    requires BitsOf(a, 8) == p + Zeros(|q|) && BitsOf(b, 8) == Zeros(|p|) + q
    ensures BitsOf(Or(a, b), 8) == p + q
  {
    hide BitsOf;
    assert OrBits(p + Zeros(|q|), Zeros(|p|) + q) == p + q;
  }

  lemma {:induction false} LowByte(v: nat)
    ensures BitsOf(v % 256, 8) == BitsOf(v, 8)
  {
    assert Shl(v / 256, 8) == 256 * (v / 256) by { assert Shl(v / 256, 4) == 16 * (v / 256); }
    BitsOfLow(v / 256, v % 256, 8);
  }

  /** The next whole byte of the low k + 8 bits. */
  lemma TopByte(c: nat, k: nat)
    ensures BitsOf(c, k + 8) == BitsOf(Shr(c, k) % 256, 8) + BitsOf(c, k)
  {
    hide BitsOf;
    BitsOfSplit(c, k + 8, k);
    LowByte(Shr(c, k));
  }

  /** Truncation to 32 bits keeps the low bits. */
  lemma Low32(v: nat, m: nat)
    requires m <= 32
    ensures BitsOf(v % 0x1_0000_0000, m) == BitsOf(v, m)
  {
    hide BitsOf, Shl;
    var q, r := v / 0x1_0000_0000, v % 0x1_0000_0000;
    Shl32(q);
    BitsOfLow(q, r, 32);
    BitsOfSplit(v, 32, m);
    BitsOfSplit(r, 32, m);
    assert BitsOf(v, m) == BitsOf(v, 32)[32 - m..];
    assert BitsOf(r, m) == BitsOf(r, 32)[32 - m..];
  }

  lemma Shl32(q: nat)
    ensures Shl(q, 32) == 0x1_0000_0000 * q
  {
    Shl8(q);
    ShlShl(q, 8, 8);
    Shl8(256 * q);
    ShlShl(q, 16, 8);
    Shl8(65536 * q);
    ShlShl(q, 24, 8);
    Shl8(0x100_0000 * q);
  }

  lemma Shl8(q: nat)
    ensures Shl(q, 8) == 256 * q
  {
    assert Shl(q, 4) == 16 * q;
  }

  lemma StepTop(c: nat, k: nat, q: seq<bit>, z: nat)
    requires |q| >= 8 && BitsOf(c, k + 8) == q + Zeros(z)
    ensures BitsOf(Shr(c, k) % 256, 8) == q[..8] && BitsOf(c, k) == q[8..] + Zeros(z)
  {
    hide BitsOf;
    TopByte(c, k);
    var t, l := BitsOf(Shr(c, k) % 256, 8), BitsOf(c, k);
    assert t == (t + l)[..8] == (q + Zeros(z))[..8] == q[..8];
    assert l == (t + l)[8..] == (q + Zeros(z))[8..] == q[8..] + Zeros(z);
  }

  lemma AppendByte(bs: Bytes, b: byte, q: seq<bit>)
    requires |q| >= 8 && BitsOf(b, 8) == q[..8]
    ensures BytesToBits(bs + [b]) + q[8..] == BytesToBits(bs) + q
  {
    hide BitsOf;
    BytesToBitsAppend(bs, [b]);
    assert BytesToBits([b]) == BitsOf(b, 8);
    assert q == q[..8] + q[8..];
  }

  /** Appends a byte: unchecked on the fast path, through nghttp2_bufs_addb on the slow one. */
  method Put(bufs: Bufs, fast: bool, b: byte) returns (ok: bool)
    requires bufs.Valid() && (fast ==> bufs.Avail() > 0)
    modifies bufs
    ensures bufs.Valid()
    ensures ok ==> bufs.Contents() == old(bufs.Contents()) + [b] && bufs.Remaining() == old(bufs.Remaining()) - 1
    ensures !ok ==> bufs.Contents() == old(bufs.Contents()) && bufs.Remaining() == old(bufs.Remaining()) == 0
    ensures fast ==> ok && bufs.Avail() == old(bufs.Avail()) - 1
  {
    if fast {
      bufs.Write([b]);
      return true;
    }
    ok := bufs.AddB(b);
  }

  /** The last byte: whole, or held with its low bits open. */
  method PutLast(bufs: Bufs, fast: bool, c: nat, nbits: nat, ghost q: seq<bit>)
    returns (ok: bool, rembits: nat, ghost p: seq<bit>)
    requires bufs.Valid() && 1 <= nbits <= 8 && (fast ==> bufs.Avail() > 0)
    requires |q| == nbits && BitsOf(c, 8) == q + Zeros(8 - nbits)
    modifies bufs
    ensures bufs.Valid() && (fast ==> ok)
    ensures |bufs.Contents()| + bufs.Remaining() == |old(bufs.Contents())| + old(bufs.Remaining())
    ensures !ok ==> bufs.Remaining() == 0 && 8 * |bufs.Contents()| < 8 * |old(bufs.Contents())| + |q|
    ensures ok ==> 1 <= rembits <= 8 && |p| == 8 - rembits
                   && BytesToBits(bufs.Contents()) + p == BytesToBits(old(bufs.Contents())) + q
                   && (rembits < 8 ==> bufs.Avail() > 0 && BitsOf(bufs.hold, 8) == p + Zeros(rembits))
  {
    hide BitsOf;
    LowByte(c);
    if nbits == 8 {
      assert q + Zeros(0) == q == q[..8] && q[8..] == [];
      ok := Put(bufs, fast, c % 256);
      AppendByte(old(bufs.Contents()), c % 256, q);
      return ok, 8, [];
    }
    if fast {
      bufs.hold := c % 256;
      ok := true;
    } else {
      ok := bufs.AddBHold(c % 256);
    }
    return ok, 8 - nbits, q;
  }

  /** One whole byte of the tail: the top eight of the k + 8 bits still to write. */
  method PutTop(bufs: Bufs, fast: bool, c: nat, k: nat, ghost q: seq<bit>, ghost z: nat) returns (ok: bool)
    requires bufs.Valid() && (fast ==> bufs.Avail() > 0)
    requires |q| >= 8 && BitsOf(c, k + 8) == q + Zeros(z)
    modifies bufs
    ensures bufs.Valid() && BitsOf(c, k) == q[8..] + Zeros(z)
    ensures fast ==> ok && bufs.Avail() == old(bufs.Avail()) - 1
    ensures |bufs.Contents()| + bufs.Remaining() == |old(bufs.Contents())| + old(bufs.Remaining())
    ensures if ok then BytesToBits(bufs.Contents()) + q[8..] == BytesToBits(old(bufs.Contents())) + q
            else bufs.Remaining() == 0 && bufs.Contents() == old(bufs.Contents())
  {
    hide BitsOf, BytesToBits, Flatten, Sum, Product;
    StepTop(c, k, q, z);
    AppendByte(bufs.Contents(), Shr(c, k) % 256, q);
    ok := Put(bufs, fast, Shr(c, k) % 256);
  }

  /** The bytes after the first: `nbits` bits of `c`, aligned to a byte boundary; the shifts are 24, 16 and 8. */
  method PutTail(bufs: Bufs, fast: bool, c: nat, nbits: nat, ghost q: seq<bit>)
    returns (ok: bool, rembits: nat, ghost p: seq<bit>)
    requires bufs.Valid() && 1 <= nbits <= 32 && (fast ==> bufs.Avail() >= (nbits + 7) / 8)
    requires |q| == nbits && BitsOf(c, 8 * ((nbits + 7) / 8)) == q + Zeros(8 * ((nbits + 7) / 8) - nbits)
    modifies bufs
    ensures bufs.Valid() && (fast ==> ok)
    ensures |bufs.Contents()| + bufs.Remaining() == |old(bufs.Contents())| + old(bufs.Remaining())
    ensures !ok ==> bufs.Remaining() == 0 && 8 * |bufs.Contents()| < 8 * |old(bufs.Contents())| + |q|
    ensures ok ==> 1 <= rembits <= 8 && |p| == 8 - rembits
                   && BytesToBits(bufs.Contents()) + p == BytesToBits(old(bufs.Contents())) + q
                   && (rembits < 8 ==> bufs.Avail() > 0 && BitsOf(bufs.hold, 8) == p + Zeros(rembits))
  {
    hide BitsOf, BytesToBits, Flatten, Sum, Product;
    var n, k := nbits, (nbits + 7) / 8;
    ghost var left, z := q, 8 * k - nbits;
    rembits, p := 8, [];
    while n > 8
      invariant bufs.Valid() && 1 <= n <= nbits && |left| == n == 8 * k - z && 0 <= z < 8
      invariant fast ==> bufs.Avail() >= k
      invariant BitsOf(c, 8 * k) == left + Zeros(z)
      invariant BytesToBits(bufs.Contents()) + left == BytesToBits(old(bufs.Contents())) + q
      invariant |bufs.Contents()| + bufs.Remaining() == |old(bufs.Contents())| + old(bufs.Remaining())
    {
      ok := PutTop(bufs, fast, c, 8 * k - 8, left, z);
      if !ok {
        assert |BytesToBits(bufs.Contents()) + left| == |BytesToBits(old(bufs.Contents())) + q|;
        return;
      }
      n, k, left := n - 8, k - 1, left[8..];
    }
    assert |BytesToBits(bufs.Contents()) + left| == |BytesToBits(old(bufs.Contents())) + q|;
    ok, rembits, p := PutLast(bufs, fast, c, n, left);
  }

  lemma ShiftedCode(code: nat, nbits: nat, rembits: nat)
    requires nbits <= rembits <= 8 && code < Shl(1, nbits)
    ensures BitsOf(Shl(code, rembits - nbits) % 256, 8)
            == Zeros(8 - rembits) + (BitsOf(code, nbits) + Zeros(rembits - nbits))
  {
    hide BitsOf, Shl;
    LowByte(Shl(code, rembits - nbits));
    BitsOfShl(code, 8 - rembits + nbits, rembits - nbits);
    LeadingZeros(code, nbits, 8 - rembits);
    ZeroBits(rembits - nbits);
  }

  /** The leading bits of a codeword fill the open byte; the rest follow. */
  lemma LeadingPart(code: nat, nbits: nat, rembits: nat)
    requires rembits <= 8 && rembits <= nbits && code < Shl(1, nbits)
    ensures var lead := Shr(code, nbits - rembits);
            && BitsOf(lead % 256, 8) == Zeros(8 - rembits) + BitsOf(lead, rembits)
            && BitsOf(code, nbits) == BitsOf(lead, rembits) + BitsOf(code, nbits - rembits)
  {
    hide BitsOf, Shl, Shr;
    var lead := Shr(code, nbits - rembits);
    BitsOfSplit(code, nbits, nbits - rembits);
    LowByte(lead);
    ShrShr(code, nbits - rembits, rembits);
    ShrOfSmall(code, nbits);
    BitsOfSplit(lead, 8, rembits);
    ZeroBits(8 - rembits);
  }

  lemma AlignedTail(code: nat, n: nat) returns (c: nat)
    requires 1 <= n <= 32
    ensures c == if n % 8 == 0 then code else Shl(code, 8 - n % 8) % 0x1_0000_0000
    ensures BitsOf(c, 8 * ((n + 7) / 8)) == BitsOf(code, n) + Zeros(8 * ((n + 7) / 8) - n)
  {
    hide BitsOf, Shl;
    if n % 8 == 0 {
      c := code;
      assert BitsOf(code, n) + Zeros(0) == BitsOf(code, n);
    } else {
      var k := 8 - n % 8;
      c := Shl(code, k) % 0x1_0000_0000;
      Low32(Shl(code, k), n + k);
      BitsOfShl(code, n, k);
      ZeroBits(k);
    }
  }

  /** huff_encode_sym: appends one codeword after the bits `p` already in the held byte. */
  method EncodeSym(bufs: Bufs, avail0: nat, rembits0: nat, nbits: nat, code: nat, ghost p0: seq<bit>)
    returns (ok: bool, avail: nat, rembits: nat, ghost p: seq<bit>)
    requires bufs.Valid() && avail0 == bufs.Avail() > 0
    requires 1 <= rembits0 <= 8 && |p0| == 8 - rembits0 && BitsOf(bufs.hold, 8) == p0 + Zeros(rembits0)
    requires 1 <= nbits <= 32 && code < Shl(1, nbits)
    modifies bufs
    ensures bufs.Valid()
    ensures |bufs.Contents()| + bufs.Remaining() == |old(bufs.Contents())| + old(bufs.Remaining())
    ensures !ok ==> bufs.Remaining() == 0 && 8 * |bufs.Contents()| < 8 * |old(bufs.Contents())| + |p0| + nbits
    ensures ok ==> avail == bufs.Avail() && 1 <= rembits <= 8 && |p| == 8 - rembits
                   && BytesToBits(bufs.Contents()) + p == BytesToBits(old(bufs.Contents())) + (p0 + BitsOf(code, nbits))
                   && (rembits < 8 ==> avail > 0 && BitsOf(bufs.hold, 8) == p + Zeros(rembits))
  {
    hide BitsOf, BytesToBits, Shl, Shr, Or, Flatten, Sum, Product;
    if rembits0 > nbits {
      ShiftedCode(code, nbits, rembits0);
      ghost var q := BitsOf(code, nbits) + Zeros(rembits0 - nbits);
      OrFills(bufs.hold, Shl(code, rembits0 - nbits) % 256, p0, q);
      bufs.FastOrBHold(Shl(code, rembits0 - nbits) % 256);
      assert p0 + q == p0 + BitsOf(code, nbits) + Zeros(rembits0 - nbits);
      return true, avail0, rembits0 - nbits, p0 + BitsOf(code, nbits);
    }
    ghost var lead := BitsOf(Shr(code, nbits - rembits0), rembits0);
    ghost var q := BitsOf(code, nbits - rembits0);
    ghost var filled := p0 + lead;
    LeadingPart(code, nbits, rembits0);
    OrFills(bufs.hold, Shr(code, nbits - rembits0) % 256, p0, lead);
    assert filled[..8] == filled && filled[8..] == [];
    AppendByte(bufs.Contents(), Or(bufs.hold, Shr(code, nbits - rembits0) % 256), filled);
    ghost var start := bufs.Contents();
    bufs.FastOrB(Shr(code, nbits - rembits0) % 256);
    assert BytesToBits(bufs.Contents()) == BytesToBits(start) + filled;
    assert p0 + BitsOf(code, nbits) == filled + q;
    assert BytesToBits(bufs.Contents()) + q == BytesToBits(start) + (p0 + BitsOf(code, nbits));
    if rembits0 == nbits {
      assert BytesToBits(bufs.Contents()) + q == BytesToBits(bufs.Contents());
      return true, avail0 - 1, 8, [];
    }
    avail := avail0 - 1;
    var n := nbits - rembits0;
    var c := if n % 8 == 0 then code else Shl(code, 8 - n % 8) % 0x1_0000_0000;
    ghost var c' := AlignedTail(code, n);
    ok, rembits, p := PutTail(bufs, avail >= (n + 7) / 8, c, n, q);
    avail := bufs.Avail();
  }

  /** The end-of-string code is all ones, so its leading bits are the padding. */
  lemma PaddingByte(r: nat)
    requires 1 <= r <= 8
    ensures BitsOf(Shr(Symbol(EOS).code, Symbol(EOS).nbits - r) % 256, 8) == Zeros(8 - r) + Ones(r)
  {
    hide BitsOf, Shr;
    var code := 0x3fff_ffff;
    assert Symbol(EOS) == HuffSym(30, code);
    assert Shl(1, 30) == code + 1 by {
      assert Shl(1, 10) == 1024;
      ShlShl(1, 10, 10);
      assert Shl(1024, 10) == 1024 * 1024;
      ShlShl(1, 20, 10);
      assert Shl(1024 * 1024, 10) == 1024 * 1024 * 1024;
    }
    BitsOfAllOnes(30);
    LeadingPart(code, 30, r);
    var lead := BitsOf(Shr(code, 30 - r), r);
    assert lead == (lead + BitsOf(code, 30 - r))[..r] == Ones(30)[..r] == Ones(r);
  }

  lemma {:induction false} BitsDetermineByte(a: nat, b: nat, n: nat)
    requires a < Shl(1, n) && b < Shl(1, n) && BitsOf(a, n) == BitsOf(b, n)
    ensures a == b
    decreases n
  {
    if n > 0 {
      assert BitsOf(a, n)[n - 1] == BitsOf(b, n)[n - 1];
      assert BitsOf(a, n)[..n - 1] == BitsOf(a / 2, n - 1);
      assert BitsOf(b, n)[..n - 1] == BitsOf(b / 2, n - 1);
      BitsDetermineByte(a / 2, b / 2, n - 1);
    }
  }

  lemma {:induction false} BitsDetermineBytes(a: Bytes, b: Bytes)
    requires BytesToBits(a) == BytesToBits(b)
    ensures a == b
  {
    hide BitsOf;
    assert |a| == |b|;
    if a != [] {
      assert BytesToBits(a)[..8] == BitsOf(a[0], 8) && BytesToBits(b)[..8] == BitsOf(b[0], 8);
      assert Shl(1, 8) == 256 by { Shl8(1); }
      BitsDetermineByte(a[0], b[0], 8);
      assert BytesToBits(a)[8..] == BytesToBits(a[1..]) && BytesToBits(b)[8..] == BytesToBits(b[1..]);
      BitsDetermineBytes(a[1..], b[1..]);
    }
  }

  lemma {:induction false} HuffBitsSnoc(a: Bytes, s: byte)
    ensures HuffBits(a + [s]) == HuffBits(a) + CodeBits(s)
  {
    hide CodeBits;
    if a == [] {
      assert [] + [s] == [s] && [s][1..] == [];
    } else {
      assert (a + [s])[1..] == a[1..] + [s];
      HuffBitsSnoc(a[1..], s);
    }
  }

  lemma {:induction false} HuffBitsGrow(src: Bytes, i: nat)
    requires i <= |src|
    ensures |HuffBits(src[..i])| <= |HuffBits(src)|
    decreases |src| - i
  {
    hide CodeBits, HuffBits;
    if i == |src| {
      assert src[..i] == src;
    } else {
      assert src[..i + 1] == src[..i] + [src[i]];
      HuffBitsSnoc(src[..i], src[i]);
      HuffBitsGrow(src, i + 1);
    }
  }

  lemma CodeFits(s: byte)
    ensures 5 <= Symbol(s).nbits <= 30 && Symbol(s).code < Shl(1, Symbol(s).nbits)
  {
    TableIsCanonical(s);
    hide Symbol;
    LimitFits(Symbol(s).nbits);
  }

  lemma WholeBits(before: Bytes, after: Bytes, src: Bytes)
    requires BytesToBits(after) == BytesToBits(before) + PaddedBits(src)
    ensures after == before + HuffEncode(src)
  {
    hide PaddedBits, BytesToBits, Pack;
    PackUnpack(PaddedBits(src));
    BytesToBitsAppend(before, HuffEncode(src));
    BitsDetermineBytes(after, before + HuffEncode(src));
  }

  lemma PaddingLength(before: Bytes, after: Bytes, p: seq<bit>, r: nat, src: Bytes)
    requires 1 <= r <= 8 && |p| == 8 - r
    requires BytesToBits(after) + p == BytesToBits(before) + HuffBits(src)
    ensures PadLength(|HuffBits(src)|) == if r == 8 then 0 else r
  {
    hide BytesToBits, HuffBits;
    var n := |HuffBits(src)|;
    assert 8 * |after| + (8 - r) == 8 * |before| + n;
  }

  /** The next byte is opened, with all its bits still free. */
  method OpenByte(bufs: Bufs, avail0: nat) returns (ok: bool, avail: nat)
    requires bufs.Valid() && avail0 == bufs.Avail()
    modifies bufs
    ensures bufs.Valid() && bufs.Contents() == old(bufs.Contents()) && bufs.Remaining() == old(bufs.Remaining())
    ensures if ok then avail == bufs.Avail() > 0 && BitsOf(bufs.hold, 8) == Zeros(8) else bufs.Remaining() == 0
  {
    hide BitsOf, Flatten, Sum, Product;
    ZeroBits(8);
    if avail0 > 0 {
      bufs.hold := 0;
      return true, avail0;
    }
    ok := bufs.AddBHold(0);
    avail := bufs.Avail();
  }

  /**
   * nghttp2_hd_huff_encode: whatever the layout of the buffers, the bytes appended are the codewords
   * followed by the padding.
   */
  method HuffEncodeInto(bufs: Bufs, src: Bytes) returns (ok: bool)
    requires bufs.Valid()
    modifies bufs
    ensures bufs.Valid() && ok == (|HuffEncode(src)| <= old(bufs.Remaining()))
    ensures ok ==> bufs.Contents() == old(bufs.Contents()) + HuffEncode(src)
    ensures ok ==> bufs.Remaining() == old(bufs.Remaining()) - |HuffEncode(src)|
  {
    hide BitsOf, BytesToBits, HuffBits, Symbol, Flatten, Sum, Product, PadLength;
    ghost var before := bufs.Contents();
    var rembits := 8;
    var avail := bufs.Avail();
    ghost var p: seq<bit> := [];
    EmptyHuffBits(before);
    for i := 0 to |src|
      invariant bufs.Valid() && avail == bufs.Avail() && 1 <= rembits <= 8 && |p| == 8 - rembits
      invariant BytesToBits(bufs.Contents()) + p == BytesToBits(before) + HuffBits(src[..i])
      invariant rembits < 8 ==> avail > 0 && BitsOf(bufs.hold, 8) == p + Zeros(rembits)
      invariant |bufs.Contents()| + bufs.Remaining() == |before| + old(bufs.Remaining())
    {
      NextSymbol(before, bufs.Contents(), p, src, i);
      if rembits == 8 {
        ok, avail := OpenByte(bufs, avail);
        if !ok {
          return;
        }
        assert p + Zeros(8) == Zeros(8);
      }
      ghost var seen, p0 := bufs.Contents(), p;
      ok, avail, rembits, p := EncodeSym(bufs, avail, rembits, Symbol(src[i]).nbits, Symbol(src[i]).code, p);
      if !ok {
        return;
      }
      Regroup(BytesToBits(seen), p0, CodeBits(src[i]), BytesToBits(before), HuffBits(src[..i]));
    }
    assert src[..|src|] == src;
    Pad(bufs, rembits, before, p, src);
    ok := true;
  }

  /** Fills the open bits of the last byte with the start of the end-of-string code. */
  method Pad(bufs: Bufs, rembits: nat, ghost before: Bytes, ghost p: seq<bit>, ghost src: Bytes)
    requires bufs.Valid() && 1 <= rembits <= 8 && |p| == 8 - rembits
    requires BytesToBits(bufs.Contents()) + p == BytesToBits(before) + HuffBits(src)
    requires rembits < 8 ==> bufs.Avail() > 0 && BitsOf(bufs.hold, 8) == p + Zeros(rembits)
    modifies bufs
    ensures bufs.Valid() && bufs.Contents() == before + HuffEncode(src)
    ensures |bufs.Contents()| + bufs.Remaining() == |old(bufs.Contents())| + old(bufs.Remaining())
  {
    hide BitsOf, BytesToBits, HuffBits, Symbol, Or, Shr, Flatten, Sum, Product, PadLength;
    ghost var seen := bufs.Contents();
    PaddingLength(before, seen, p, rembits, src);
    if rembits < 8 {
      EosIsThirtyBits();
      PaddingByte(rembits);
      ghost var filled := p + Ones(rembits);
      OrFills(bufs.hold, Shr(Symbol(EOS).code, Symbol(EOS).nbits - rembits) % 256, p, Ones(rembits));
      assert filled[..8] == filled && filled[8..] == [];
      AppendByte(seen, Or(bufs.hold, Shr(Symbol(EOS).code, Symbol(EOS).nbits - rembits) % 256), filled);
      bufs.FastOrB(Shr(Symbol(EOS).code, Symbol(EOS).nbits - rembits) % 256);
      assert BytesToBits(bufs.Contents()) + [] == BytesToBits(bufs.Contents());
      Regroup(BytesToBits(seen), p, Ones(rembits), BytesToBits(before), HuffBits(src));
    } else {
      assert BytesToBits(seen) + p == BytesToBits(seen);
      assert HuffBits(src) + Ones(0) == HuffBits(src);
    }
    WholeBits(before, bufs.Contents(), src);
  }

  /** One more symbol: its code is well formed and its bits count towards the whole. */
  lemma NextSymbol(before: Bytes, now: Bytes, p: seq<bit>, src: Bytes, i: nat)
    requires i < |src| && BytesToBits(now) + p == BytesToBits(before) + HuffBits(src[..i])
    ensures var n := Symbol(src[i]).nbits;
            && 5 <= n <= 30 && Symbol(src[i]).code < Shl(1, n)
            && HuffBits(src[..i + 1]) == HuffBits(src[..i]) + CodeBits(src[i])
            && 8 * |now| + |p| + n <= 8 * |before| + |HuffBits(src)|
  {
    hide HuffBits, Symbol;
    CodeFits(src[i]);
    assert src[..i + 1] == src[..i] + [src[i]];
    HuffBitsSnoc(src[..i], src[i]);
    HuffBitsGrow(src, i + 1);
    assert |BytesToBits(now) + p| == |BytesToBits(before) + HuffBits(src[..i])|;
  }

  lemma EosIsThirtyBits()
    ensures Symbol(EOS).nbits == 30
  {
  }

  lemma EmptyHuffBits(before: Bytes)
    ensures BytesToBits(before) + [] == BytesToBits(before) + HuffBits([])
  {
  }

  lemma Regroup(a: seq<bit>, p: seq<bit>, c: seq<bit>, b: seq<bit>, h: seq<bit>)
    requires a + p == b + h
    ensures a + (p + c) == b + (h + c)
  {
    assert a + (p + c) == (a + p) + c;
    assert b + (h + c) == (b + h) + c;
  }
}
