/** Huffman coding of strings, section 5.2 of RFC 7541; lib/nghttp2_hd_huffman.c. */
module Huffman {
  import opened Bytes
  import opened HuffmanTable

  // ---- decoding -----------------------------------------------------------

  /** An internal node of the code tree: the `n` bits `v` read since the last symbol. */
  datatype HuffState = HuffState(n: nat, v: nat)

  const Root := HuffState(0, 0)

  type Node = s: HuffState | s.n < 30 witness Root

  datatype Decoded = Fail | Ok(state: Node, out: Bytes)

  /** Walks the tree bit by bit; reaching the end-of-string symbol fails. */
  function Walk(st: Node, bits: seq<bit>): Decoded
    decreases |bits|
  {
    if bits == [] then Ok(st, [])
    else
      var n, v := st.n + 1, 2 * st.v + bits[0];
      if n == 30 || v < Limit(n) then
        if Leaf(n, v) == EOS then Fail
        else Emit(Leaf(n, v), Walk(Root, bits[1..]))
      else Walk(HuffState(n, v), bits[1..])
  }

  function Emit(s: byte, d: Decoded): Decoded
  {
    match d
    case Fail => Fail
    case Ok(t, out) => Ok(t, [s] + out)
  }

  function Then(d: Decoded, more: seq<bit>): Decoded
  {
    match d
    case Fail => Fail
    case Ok(t, out) =>
      match Walk(t, more)
      case Fail => Fail
      case Ok(t2, out2) => Ok(t2, out + out2)
  }

  lemma {:induction false} WalkAppend(st: Node, a: seq<bit>, b: seq<bit>)
    ensures Walk(st, a + b) == Then(Walk(st, a), b)
    decreases |a|
  {
    hide Leaf, Limit;
    if a == [] {
      assert a + b == b;
      assert forall out: Bytes :: [] + out == out;
    } else {
      assert (a + b)[1..] == a[1..] + b;
      var n, v := st.n + 1, 2 * st.v + a[0];
      if n == 30 || v < Limit(n) {
        WalkAppend(Root, a[1..], b);
        if Leaf(n, v) != EOS {
          EmitThen(Leaf(n, v), Walk(Root, a[1..]), b);
        }
      } else {
        WalkAppend(HuffState(n, v), a[1..], b);
      }
    }
  }

  lemma EmitThen(s: nat, d: Decoded, b: seq<bit>)
    requires s < EOS
    ensures Then(Emit(s, d), b) == Emit(s, Then(d, b))
  {
    if d.Ok? && Walk(d.state, b).Ok? {
      assert [s] + d.out + Walk(d.state, b).out == [s] + (d.out + Walk(d.state, b).out);
    }
  }

  /** The entry of huff_decode_table for a node and four bits. */
  function TableEntry(st: Node, nibble: nat): Decoded
    requires nibble < 16
  {
    Walk(st, BitsOf(nibble, 4))
  }

  /** No codeword is shorter than five bits, so four bits yield at most one symbol. */
  lemma EntryEmitsAtMostOne(st: Node, nibble: nat)
    requires nibble < 16
    ensures TableEntry(st, nibble).Ok? ==> |TableEntry(st, nibble).out| <= 1
  {
    NoSymbolFromRoot(st, BitsOf(nibble, 4));
  }

  lemma {:induction false} NoSymbolFromRoot(st: Node, bits: seq<bit>)
    requires |bits| <= 4
    ensures Walk(st, bits).Ok? ==> |Walk(st, bits).out| <= 1
    ensures st.n + |bits| <= 4 ==> Walk(st, bits).Ok? && Walk(st, bits).out == []
    decreases |bits|
  {
    if bits != [] {
      var n, v := st.n + 1, 2 * st.v + bits[0];
      if n == 30 || v < Limit(n) {
        assert n >= 5;
        NoSymbolFromRoot(Root, bits[1..]);
      } else {
        NoSymbolFromRoot(HuffState(n, v), bits[1..]);
      }
    }
  }

  function DecodeByte(st: Node, b: byte): Decoded
  {
    Walk(st, BitsOf(b, 8))
  }

  lemma ByteIsTwoNibbles(st: Node, b: byte)
    ensures DecodeByte(st, b) == Then(TableEntry(st, b / 16), BitsOf(b % 16, 4))
  {
    assert Shr(b, 4) == b / 16 by {
      assert Shr(b, 1) == b / 2;
      assert Shr(b, 2) == b / 2 / 2;
    }
    BitsOfSplit(b, 8, 4);
    LowNibble(b);
    WalkAppend(st, BitsOf(b / 16, 4), BitsOf(b % 16, 4));
  }

  lemma LowNibble(b: byte)
    ensures BitsOf(b, 4) == BitsOf(b % 16, 4)
  {
    assert Shl(b / 16, 4) == 16 * (b / 16) by { assert Shl(b / 16, 2) == 4 * (b / 16); }
    BitsOfLow(b / 16, b % 16, 4);
  }

  /** Decoding may stop here: at most seven bits are open and all are ones. */
  predicate Accepting(st: HuffState) { st.n <= 7 && st.v == Shl(1, st.n) - 1 }

  lemma RootAccepts()
    ensures Accepting(Root)
  {
    assert Shl(1, 0) == 1;
  }

  /** nghttp2_hd_huff_decode: `ok` is false for NGHTTP2_ERR_HEADER_COMP. */
  method HuffDecode(st0: Node, accept0: bool, src: Bytes, final: bool)
    returns (ok: bool, st: Node, accept: bool, out: Bytes)
    requires accept0 == Accepting(st0)
    ensures var d := Walk(st0, BytesToBits(src));
            if d.Fail? || (final && !Accepting(d.state)) then !ok
            else ok && d == Ok(st, out) && accept == Accepting(st)
    ensures |out| <= 2 * |src|
  {
    st, accept, out := st0, accept0, [];
    for i := 0 to |src|
      invariant accept == Accepting(st) && |out| <= 2 * i
      invariant Walk(st0, BytesToBits(src[..i])) == Ok(st, out)
    {
      ghost var seen := BytesToBits(src[..i]);
      assert src[..i + 1] == src[..i] + [src[i]];
      BytesToBitsAppend(src[..i], [src[i]]);
      assert BytesToBits([src[i]]) == BitsOf(src[i], 8);
      WalkAppend(st0, seen, BitsOf(src[i], 8));
      ByteIsTwoNibbles(st, src[i]);
      EntryEmitsAtMostOne(st, src[i] / 16);
      var t := TableEntry(st, src[i] / 16);
      if t.Fail? {
        PrefixFails(st0, src, i + 1);
        return false, st, accept, out;
      }
      EntryEmitsAtMostOne(t.state, src[i] % 16);
      var u := TableEntry(t.state, src[i] % 16);
      if u.Fail? {
        PrefixFails(st0, src, i + 1);
        return false, st, accept, out;
      }
      assert out + (t.out + u.out) == out + t.out + u.out;
      st, out := u.state, out + t.out + u.out;
      accept := Accepting(st);
    }
    assert src[..|src|] == src;
    ok := !(final && !accept);
  }

  lemma PrefixFails(st: Node, src: Bytes, i: nat)
    requires i <= |src| && Walk(st, BytesToBits(src[..i])).Fail?
    ensures Walk(st, BytesToBits(src)).Fail?
  {
    assert src == src[..i] + src[i..];
    BytesToBitsAppend(src[..i], src[i..]);
    WalkAppend(st, BytesToBits(src[..i]), BytesToBits(src[i..]));
  }

  // ---- encoding -----------------------------------------------------------

  function CodeBits(s: byte): seq<bit> { BitsOf(Symbol(s).code, Symbol(s).nbits) }

  /** The codewords of a string, one after another. */
  function HuffBits(src: Bytes): seq<bit>
  {
    if src == [] then [] else CodeBits(src[0]) + HuffBits(src[1..])
  }

  /** Open bits in the last byte, to be filled with the ones that begin the end-of-string code. */
  function PadLength(n: nat): (p: nat)
    ensures p < 8 && (n + p) % 8 == 0 && (n + p) / 8 == (n + 7) / 8
  {
    (8 - n % 8) % 8
  }

  function PaddedBits(src: Bytes): (bs: seq<bit>)
    ensures |bs| % 8 == 0
  {
    HuffBits(src) + Ones(PadLength(|HuffBits(src)|))
  }

  function Pack(bits: seq<bit>): (bs: Bytes)
    requires |bits| % 8 == 0
    ensures |bs| == |bits| / 8
  {
    if bits == [] then []
    else
      ValueBits(bits[..8]);
      assert Shl(1, 8) == 256;
      [ValueOf(bits[..8])] + Pack(bits[8..])
  }

  lemma {:induction false} PackUnpack(bits: seq<bit>)
    requires |bits| % 8 == 0
    ensures BytesToBits(Pack(bits)) == bits
  {
    if bits != [] {
      ValueBits(bits[..8]);
      PackUnpack(bits[8..]);
      assert bits == bits[..8] + bits[8..];
    }
  }

  /** The bytes nghttp2_hd_huff_encode writes. */
  function HuffEncode(src: Bytes): (bs: Bytes)
    ensures |bs| == (|HuffBits(src)| + 7) / 8
  {
    Pack(PaddedBits(src))
  }

  method HuffEncodeCount(src: Bytes) returns (n: nat)
    ensures n == |HuffEncode(src)|
  {
    var nbits := 0;
    for i := 0 to |src|
      invariant nbits + |HuffBits(src[i..])| == |HuffBits(src)|
    {
      nbits := nbits + Symbol(src[i]).nbits;
      assert src[i..][1..] == src[i + 1..];
    }
    n := (nbits + 7) / 8;
  }

  // ---- round trip ---------------------------------------------------------

  /** Before its last bit a codeword stays above the limits: it has no codeword as a proper prefix. */
  lemma {:induction false} InternalPrefix(n: nat, c: nat, k: nat)
    requires 1 <= k <= n <= 30 && 2 * Limit(n - 1) <= c
    ensures Limit(n - k) <= Shr(c, k)
    decreases k
  {
    if k == 1 {
      assert Shr(c, 1) == c / 2;
    } else {
      InternalPrefix(n, c, k - 1);
      LimitDoubles(n - k);
      ShrStep(c, k - 1);
    }
  }

  lemma WalkOne(st: Node, b: bit)
    ensures var n, v := st.n + 1, 2 * st.v + b;
            if n == 30 || v < Limit(n) then
              Leaf(n, v) != EOS ==> Walk(st, [b]) == Ok(Root, [Leaf(n, v)])
            else Walk(st, [b]) == Ok(HuffState(n, v), [])
  {
    hide Leaf, Limit;
    assert [b][1..] == [];
  }

  /** Reading the first bits of a codeword leads to the node they spell. */
  lemma {:induction false} WalkPrefix(n: nat, c: nat, k: nat)
    requires 1 <= k <= n <= 30 && 2 * Limit(n - 1) <= c && Shr(c, n) == 0
    ensures Walk(Root, BitsOf(Shr(c, k), n - k)) == Ok(HuffState(n - k, Shr(c, k)), [])
    decreases n - k
  {
    hide Leaf, Limit;
    if k == n {
    } else {
      var v := Shr(c, k);
      WalkPrefix(n, c, k + 1);
      ShrStep(c, k);
      assert BitsOf(v, n - k) == BitsOf(v / 2, n - k - 1) + [v % 2];
      WalkAppend(Root, BitsOf(v / 2, n - k - 1), [v % 2]);
      InternalPrefix(n, c, k);
      WalkOne(HuffState(n - k - 1, v / 2), v % 2);
    }
  }

  lemma {:induction false} ShrOfSmall(c: nat, n: nat)
    requires c < Shl(1, n)
    ensures Shr(c, n) == 0
    decreases n
  {
    ShrBelow(c, 1, n);
  }

  lemma {:induction false} LimitFits(n: nat)
    requires n <= 30
    ensures Limit(n) <= Shl(1, n)
    decreases 30 - n
  {
    if n < 30 {
      LimitFits(n + 1);
      LimitDoubles(n);
    } else {
      assert Shl(1, 10) == 1024;
      ShlShl(1, 10, 10);
      assert Shl(1024, 10) == 1024 * 1024;
      ShlShl(1, 20, 10);
      assert Shl(1024 * 1024, 10) == 1024 * 1024 * 1024;
    }
  }

  /** From the root, a codeword yields its symbol and returns to the root. */
  lemma WalkCode(s: byte, n: nat, c: nat)
    requires 5 <= n <= 30 && 2 * Limit(n - 1) <= c < Limit(n) && Leaf(n, c) == s
    ensures Walk(Root, BitsOf(c, n)) == Ok(Root, [s])
  {
    hide Leaf, Limit;
    LimitFits(n);
    ShrOfSmall(c, n);
    assert Shr(c, 1) == c / 2;
    WalkPrefix(n, c, 1);
    WalkAppend(Root, BitsOf(c / 2, n - 1), [c % 2]);
    WalkOne(HuffState(n - 1, c / 2), c % 2);
  }

  lemma {:induction false} WalkString(src: Bytes)
    ensures Walk(Root, HuffBits(src)) == Ok(Root, src)
  {
    if src != [] {
      var s := src[0];
      TableIsCanonical(s);
      WalkCode(s, Symbol(s).nbits, Symbol(s).code);
      WalkString(src[1..]);
      WalkAppend(Root, CodeBits(s), HuffBits(src[1..]));
      assert src == [s] + src[1..];
    }
  }

  lemma OnesAreInternal(p: nat)
    requires p <= 7
    ensures Limit(p) < Shl(1, p)
  {
    assert Shl(1, 5) == 32;
  }

  lemma {:induction false} BitsOfAllOnes(n: nat)
    ensures BitsOf(Shl(1, n) - 1, n) == Ones(n)
  {
    if n > 0 {
      BitsOfAllOnes(n - 1);
      assert (2 * Shl(1, n - 1) - 1) / 2 == Shl(1, n - 1) - 1;
    }
  }

  lemma {:induction false} WalkPadding(p: nat)
    requires p <= 7
    ensures Walk(Root, Ones(p)) == Ok(HuffState(p, Shl(1, p) - 1), [])
  {
    hide Leaf, Limit;
    if p > 0 {
      WalkPadding(p - 1);
      assert Ones(p) == Ones(p - 1) + [1];
      WalkAppend(Root, Ones(p - 1), [1]);
      WalkOne(HuffState(p - 1, Shl(1, p - 1) - 1), 1);
      OnesAreInternal(p);
    }
  }

  /** Decoding an encoded string returns it and ends in an accepting state. */
  lemma HuffRoundTrip(src: Bytes)
    ensures var d := Walk(Root, BytesToBits(HuffEncode(src)));
            d.Ok? && d.out == src && Accepting(d.state)
  {
    var p := PadLength(|HuffBits(src)|);
    PackUnpack(PaddedBits(src));
    WalkString(src);
    WalkPadding(p);
    WalkAppend(Root, HuffBits(src), Ones(p));
    assert src + [] == src;
  }
}
