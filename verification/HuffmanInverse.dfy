/**
 * Huffman decoding is strict: the decoder accepts exactly the padded encodings of section 5.2 of RFC 7541, and so no
 * two byte strings decode to the same text.
 */
module HuffmanInverse {
  import opened Bytes
  import opened HuffmanTable
  import opened Huffman

  // ---- the leaves of the tree --------------------------------------------------------------------

  /** The entry of the symbol table for the symbol at a leaf spells out the way to that leaf. */
  predicate SpellsBack(n: nat, v: nat) { Symbol(Leaf(n, v)) == HuffSym(n, v) }

  lemma ShortLeaves(n: nat, v: nat)
    requires 1 <= n <= 6 && 2 * Limit(n - 1) <= v < Limit(n)
    ensures SpellsBack(n, v)
  {
  }

  lemma SevenBitLeaves(n: nat, v: nat)
    requires 7 <= n <= 7 && 2 * Limit(n - 1) <= v < Limit(n)
    ensures SpellsBack(n, v)
  {
  }

  lemma MediumLeaves(n: nat, v: nat)
    requires 8 <= n <= 19 && 2 * Limit(n - 1) <= v < Limit(n)
    ensures SpellsBack(n, v)
  {
  }

  lemma LongLeaves20(n: nat, v: nat)
    requires 20 <= n <= 21 && 2 * Limit(n - 1) <= v < Limit(n)
    ensures SpellsBack(n, v)
  {
  }

  lemma LongLeaves22(n: nat, v: nat)
    requires 22 <= n <= 22 && 2 * Limit(n - 1) <= v < Limit(n)
    ensures SpellsBack(n, v)
  {
  }

  lemma LongLeaves23(n: nat, v: nat)
    requires 23 <= n <= 23 && 2 * Limit(n - 1) <= v < Limit(n)
    ensures SpellsBack(n, v)
  {
  }

  lemma LongLeaves24(n: nat, v: nat)
    requires 24 <= n <= 26 && 2 * Limit(n - 1) <= v < Limit(n)
    ensures SpellsBack(n, v)
  {
  }

  lemma LongLeaves27(n: nat, v: nat)
    requires 27 <= n <= 27 && 2 * Limit(n - 1) <= v < Limit(n)
    ensures SpellsBack(n, v)
  {
  }

  lemma LongLeaves28(n: nat, v: nat)
    requires 28 <= n <= 30 && 2 * Limit(n - 1) <= v < Limit(n)
    ensures SpellsBack(n, v)
  {
  }

  /** Every leaf is the codeword of its symbol. */
  lemma LeafIsSymbol(n: nat, v: nat)
    requires 1 <= n <= 30 && 2 * Limit(n - 1) <= v < Limit(n)
    ensures SpellsBack(n, v)
  {
    hide SpellsBack, Limit;
    if n <= 6 {
      ShortLeaves(n, v);
    } else if n <= 7 {
      SevenBitLeaves(n, v);
    } else if n <= 19 {
      MediumLeaves(n, v);
    } else if n <= 21 {
      LongLeaves20(n, v);
    } else if n <= 22 {
      LongLeaves22(n, v);
    } else if n <= 23 {
      LongLeaves23(n, v);
    } else if n <= 26 {
      LongLeaves24(n, v);
    } else if n <= 27 {
      LongLeaves27(n, v);
    } else {
      LongLeaves28(n, v);
    }
  }

  // ---- decoding backwards ------------------------------------------------------------------------

  /** A node of the tree above its leaves. */
  predicate Internal(st: Node) { Limit(st.n) <= st.v < Shl(1, st.n) }

  /** The bits read so far are the codewords of the text that came out and the way to the node reached. */
  lemma {:induction false} WalkSpells(st: Node, bits: seq<bit>)
    requires Internal(st) && Walk(st, bits).Ok?
    ensures var d := Walk(st, bits);
            && Internal(d.state)
            && BitsOf(st.v, st.n) + bits == HuffBits(d.out) + BitsOf(d.state.v, d.state.n)
    decreases |bits|
  {
    hide Leaf, Limit, Internal, HuffBits, BitsOf, Symbol, CodeBits;
    NoBits();
    if bits == [] {
      assert BitsOf(st.v, st.n) + bits == [] + BitsOf(st.v, st.n);
    } else {
      var n, v, rest := st.n + 1, 2 * st.v + bits[0], bits[1..];
      ChildOf(st, bits[0]);
      assert BitsOf(st.v, st.n) + bits == BitsOf(v, n) + rest;
      if n == 30 || v < Limit(n) {
        LeafBits(n, v);
        var d := Walk(Root, rest);
        WalkSpells(Root, rest);
        assert [] + rest == rest;
        SymbolFirst(Leaf(n, v), d.out, rest, BitsOf(d.state.v, d.state.n));
      } else {
        WalkSpells(HuffState(n, v), rest);
      }
    }
  }

  lemma NoBits()
    ensures HuffBits([]) == [] && BitsOf(0, 0) == []
  {
  }

  lemma LeafBits(n: nat, v: nat)
    requires 1 <= n <= 30 && 2 * Limit(n - 1) <= v < Limit(n) && Leaf(n, v) != EOS
    ensures CodeBits(Leaf(n, v)) == BitsOf(v, n)
  {
    hide Leaf, Limit, Symbol;
    LeafIsSymbol(n, v);
  }

  lemma SymbolFirst(s: byte, out: Bytes, rest: seq<bit>, tail: seq<bit>)
    requires rest == HuffBits(out) + tail
    ensures CodeBits(s) + rest == HuffBits([s] + out) + tail
  {
    hide CodeBits;
    assert ([s] + out)[1..] == out;
  }

  lemma ChildOf(st: Node, b: bit)
    requires Internal(st)
    ensures var n, v := st.n + 1, 2 * st.v + b;
            && BitsOf(v, n) == BitsOf(st.v, st.n) + [b] && 2 * Limit(n - 1) <= v < Shl(1, n)
            && (n == 30 ==> v < Limit(n)) && (n < 30 && Limit(n) <= v ==> Internal(HuffState(n, v)))
    ensures Internal(Root)
  {
    var v := 2 * st.v + b;
    assert v / 2 == st.v && v % 2 == b;
    if st.n == 29 { LimitFits(30); AllOfThirty(); }
  }

  lemma AllOfThirty()
    ensures Shl(1, 30) == Limit(30)
  {
    ShlTen(1);
    ShlTen(1024);
    ShlTen(1024 * 1024);
    hide Shl;
    ShlShl(1, 10, 10);
    ShlShl(1, 20, 10);
  }

  lemma ShlTen(v: nat)
    ensures Shl(v, 10) == 1024 * v
  {
    assert Shl(v, 5) == 32 * v;
  }

  lemma {:induction false} ValueOfBits(v: nat, n: nat)
    requires v < Shl(1, n)
    ensures ValueOf(BitsOf(v, n)) == v
  {
    if n > 0 {
      ValueOfBits(v / 2, n - 1);
      assert BitsOf(v, n)[..n - 1] == BitsOf(v / 2, n - 1);
    }
  }

  /** Different bytes have different bits. */
  lemma {:induction false} BitsInjective(a: Bytes, b: Bytes)
    requires BytesToBits(a) == BytesToBits(b)
    ensures a == b
  {
    if a != [] && b != [] {
      assert Shl(1, 8) == 256;
      assert BytesToBits(a)[..8] == BitsOf(a[0], 8) && BytesToBits(b)[..8] == BitsOf(b[0], 8);
      ValueOfBits(a[0], 8);
      ValueOfBits(b[0], 8);
      assert BytesToBits(a)[8..] == BytesToBits(a[1..]) && BytesToBits(b)[8..] == BytesToBits(b[1..]);
      BitsInjective(a[1..], b[1..]);
    }
  }

  /** The decoder accepts a byte string, with a text, exactly if it is the padded encoding of that text. */
  lemma DecodeExact(bs: Bytes, text: Bytes)
    ensures var d := Walk(Root, BytesToBits(bs));
            d.Ok? && Accepting(d.state) && d.out == text <==> bs == HuffEncode(text)
  {
    hide Walk, HuffBits, HuffEncode, Limit, BytesToBits, BitsOf;
    HuffRoundTrip(text);
    var d := Walk(Root, BytesToBits(bs));
    if d.Ok? && Accepting(d.state) && d.out == text {
      RootInternal();
      WalkSpells(Root, BytesToBits(bs));
      BitsOfAllOnes(d.state.n);
      assert [] + BytesToBits(bs) == BytesToBits(bs);
      PaddedIs(bs, text, d.state.n);
    }
  }

  lemma PaddedIs(bs: Bytes, text: Bytes, n: nat)
    requires BytesToBits(bs) == HuffBits(text) + Ones(n) && n <= 7
    ensures bs == HuffEncode(text)
  {
    hide BytesToBits, HuffBits, Pack, Ones;
    PadIs(|HuffBits(text)|, n);
    PackUnpack(PaddedBits(text));
    BitsInjective(bs, HuffEncode(text));
  }

  lemma RootInternal()
    ensures Internal(Root)
  {
  }

  lemma PadIs(k: nat, n: nat)
    requires n <= 7 && (k + n) % 8 == 0
    ensures n == PadLength(k)
  {
  }
}
