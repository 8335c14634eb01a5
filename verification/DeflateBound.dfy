/**
 * nghttp2_hd_deflate_bound (lib/nghttp2_hd.c): the size a caller may allocate for a block.  The bound
 * allows 12 bytes of framing per field; a literal whose name and value both need six-byte lengths takes 13.
 */
module DeflateBound {
  import opened Bytes
  import opened IntCodec
  import opened Huffman
  import opened HuffmanTable
  import opened StaticTable
  import opened DynamicTable
  import D = Deflate

  /** The first length whose 7-bit-prefix encoding takes six bytes. */
  const SIX_BYTE_LENGTH := 0x1000_0000 + 127

  function Bound(nvs: seq<D.Nv>): nat { 12 + FieldBounds(nvs) }

  function FieldBounds(nvs: seq<D.Nv>): nat
  {
    if nvs == [] then 0 else 12 + |nvs[0].name| + |nvs[0].value| + FieldBounds(nvs[1..])
  }

  method ComputeBound(nvs: seq<D.Nv>) returns (n: nat)
    ensures n == Bound(nvs)
  {
    n := 12 + 6 * 2 * |nvs|;
    for i := 0 to |nvs|
      invariant n + FieldBounds(nvs[i..]) == 12 + FieldBounds(nvs) + 12 * (|nvs| - i)
    {
      assert nvs[i..][1..] == nvs[i + 1..];
      n := n + |nvs[i].name| + |nvs[i].value|;
    }
  }

  lemma IntLength(first: byte, n: nat, prefix: nat)
    requires ValidPrefix(prefix) && n <= UINT32_MAX
    ensures |EncodeInt(first, n, prefix)| <= 6
    ensures prefix == 7 ==> (|EncodeInt(first, n, 7)| == 6 <==> n >= SIX_BYTE_LENGTH)
  {
    hide LowBits;
    var k := PrefixMask(prefix);
    assert Pow128(4) == 0x1000_0000 && Pow128(5) == 0x8_0000_0000 by {
      assert Pow128(2) == 128 * 128;
      assert Pow128(3) == 128 * 128 * 128;
    }
    if n >= k {
      DigitCount(n - k, 4);
      DigitCount(n - k, 5);
    }
  }

  /** A string is sent raw with a six-byte length. */
  predicate LongRaw(s: Bytes) { !D.UsesHuffman(s) && |s| >= SIX_BYTE_LENGTH }

  lemma StringLength(s: Bytes)
    requires |s| <= UINT32_MAX
    ensures |D.EmitString(s)| <= |s| + 6
    ensures |D.EmitString(s)| == |s| + 6 <==> LongRaw(s)
  {
    hide EncodeInt, HuffEncode;
    IntLength(if D.UsesHuffman(s) then 0x80 else 0, |D.WireBody(s)|, 7);
  }

  /** The per-field allowance holds exactly unless a new name and its value are both long and sent raw. */
  lemma FieldFitsExactly(t: Table, max: nat, nv: D.Nv)
    requires IndexLimit(t) < UINT32_MAX && |nv.name| <= UINT32_MAX && |nv.value| <= UINT32_MAX
    ensures var r := D.Search(t, D.FieldOf(nv), D.IndexingMode(nv, max).NeverIndexing?);
            |D.DeflateNv(t, max, nv)| <= 12 + |nv.name| + |nv.value|
            <==> !(r.index == -1 && LongRaw(nv.name) && LongRaw(nv.value))
  {
    hide EncodeInt, D.EmitString, D.IndexingMode, D.Search, LongRaw;
    var mode := D.IndexingMode(nv, max);
    var r := D.Search(t, D.FieldOf(nv), mode.NeverIndexing?);
    StringLength(nv.name);
    StringLength(nv.value);
    if r.index != -1 {
      IntLength(0x80, r.index + 1, 7);
      IntLength(D.FirstByteOf(mode), r.index + 1, D.NamePrefix(mode));
    }
  }

  predicate Modest(nv: D.Nv)
  {
    |nv.name| <= UINT32_MAX && |nv.value| <= UINT32_MAX && !(LongRaw(nv.name) && LongRaw(nv.value))
  }

  lemma {:induction false} ListFits(t: Table, max: nat, nvs: seq<D.Nv>)
    requires Size(t) <= max <= UINT32_MAX && forall i :: 0 <= i < |nvs| ==> Modest(nvs[i])
    ensures |D.DeflateList(t, max, nvs)| <= FieldBounds(nvs)
    decreases |nvs|
  {
    hide D.DeflateNv, D.IndexingMode, D.Search, LongRaw;
    if nvs != [] {
      CountBySize(t);
      FieldFitsExactly(t, max, nvs[0]);
      TableFits(t, max, nvs[0]);
      ListFits(D.TableAfter(t, max, nvs[0]), max, nvs[1..]);
    }
  }

  lemma TableFits(t: Table, max: nat, nv: D.Nv)
    requires Size(t) <= max
    ensures Size(D.TableAfter(t, max, nv)) <= max
  {
    hide D.IndexingMode, D.Search, Insert;
    InsertFits(t, D.FieldOf(nv), max);
  }

  /** A block never exceeds the bound as long as no field has both a long raw name and a long raw value. */
  lemma BlockFits(d: D.Deflater, nvs: seq<D.Nv>)
    requires Size(d.table) <= d.max <= UINT32_MAX && d.min <= UINT32_MAX
    requires forall i :: 0 <= i < |nvs| ==> Modest(nvs[i])
    ensures |D.DeflateBlock(d, nvs)| <= Bound(nvs)
  {
    hide EncodeInt, D.DeflateList, Modest;
    IntLength(0x20, d.min, 5);
    IntLength(0x20, d.max, 5);
    ListFits(d.table, d.max, nvs);
  }

  // ---- the bound is too small for very long literals ----------------------

  function Zeros(n: nat): (s: Bytes)
    ensures |s| == n
  {
    seq(n, _ => 0)
  }

  lemma {:induction false} ZerosDoNotCompress(n: nat)
    ensures |HuffBits(Zeros(n))| == 13 * n
  {
    if n > 0 {
      assert Zeros(n)[1..] == Zeros(n - 1);
      assert Symbol(0) == HuffSym(13, 0x1ff8);
      hide Symbol;
      ZerosDoNotCompress(n - 1);
    }
  }

  lemma NamesAreShort(i: nat)
    requires i < TOKEN_COUNT
    ensures |TokenName(i)| <= 27
  {
  }

  lemma LongZerosAreNew(n: nat)
    requires n > 27
    ensures TokenOf(Zeros(n)) == -1
  {
    var token := TokenOf(Zeros(n));
    if token >= 0 {
      NamesAreShort(token);
    }
  }

  /** Thirteen fields of zero bytes, each part 2^28 + 127 bytes long: one byte more than the bound. */
  lemma BoundTooSmall()
    ensures var z := Zeros(SIX_BYTE_LENGTH);
            var nvs := seq(13, _ => D.Nv(z, z, false));
            |D.DeflateBlock(D.InitDeflater(4096), nvs)| == Bound(nvs) + 1
  {
    var z := Zeros(SIX_BYTE_LENGTH);
    var nv := D.Nv(z, z, false);
    LongLiteral(nv);
    ManyLongLiterals(nv, 13);
  }

  lemma LongLiteral(nv: D.Nv)
    requires nv == D.Nv(Zeros(SIX_BYTE_LENGTH), Zeros(SIX_BYTE_LENGTH), false)
    ensures |D.DeflateNv([], 4096, nv)| == 13 + |nv.name| + |nv.value| && D.TableAfter([], 4096, nv) == []
  {
    hide EncodeInt, HuffBits, D.EmitString, StaticField, TokenName;
    LongZerosAreNew(SIX_BYTE_LENGTH);
    ZerosDoNotCompress(SIX_BYTE_LENGTH);
    StringLength(nv.name);
    assert D.IndexingMode(nv, 4096).WithoutIndexing?;
    assert D.Search([], D.FieldOf(nv), false) == D.Found(-1, false);
  }

  lemma {:induction false} ManyLongLiterals(nv: D.Nv, k: nat)
    requires |D.DeflateNv([], 4096, nv)| == 13 + |nv.name| + |nv.value| && D.TableAfter([], 4096, nv) == []
    ensures var nvs := seq(k, _ => nv);
            |D.DeflateList([], 4096, nvs)| == FieldBounds(nvs) + k
    decreases k
  {
    hide D.DeflateNv, D.TableAfter;
    if k > 0 {
      var nvs := seq(k, _ => nv);
      assert nvs[1..] == seq(k - 1, _ => nv);
      ManyLongLiterals(nv, k - 1);
    }
  }
}
