/** Bytes, bits and machine shifts, shared by the HPACK modules. */
module Bytes {
  type byte = x: int | 0 <= x < 256
  type bit = x: int | 0 <= x < 2
  type Bytes = seq<byte>

  const UINT32_MAX := 0xFFFF_FFFF

  datatype Option<+T> = None | Some(value: T)

  predicate Distinct<T(==)>(s: seq<T>) { forall i, j :: 0 <= i < j < |s| ==> s[i] != s[j] }

  function Min(a: int, b: int): int { if a <= b then a else b }

  function Max(a: int, b: int): int { if a >= b then a else b }

  // ---- shifts, one bit at a time ----------------------------------------

  /** `v << k` before any truncation. */
  function Shl(v: nat, k: nat): (r: nat)
    ensures r >= v
    decreases k
  {
    if k == 0 then v else 2 * Shl(v, k - 1)
  }

  /** `v >> k`. */
  function Shr(v: nat, k: nat): nat
    decreases k
  {
    if k == 0 then v else Shr(v / 2, k - 1)
  }

  lemma {:induction false} ShlAdd(a: nat, b: nat, k: nat)
    ensures Shl(a + b, k) == Shl(a, k) + Shl(b, k)
    decreases k
  {
    if k > 0 {
      ShlAdd(a, b, k - 1);
    }
  }

  lemma {:induction false} ShlShl(v: nat, a: nat, b: nat)
    ensures Shl(Shl(v, a), b) == Shl(v, a + b)
    decreases b
  {
    if b > 0 {
      ShlShl(v, a, b - 1);
    }
  }

  lemma {:induction false} ShrShr(v: nat, a: nat, b: nat)
    ensures Shr(Shr(v, a), b) == Shr(v, a + b)
    decreases a
  {
    if a > 0 {
      ShrShr(v / 2, a - 1, b);
    }
  }

  lemma {:induction false} ShlMonotone(a: nat, b: nat, k: nat)
    requires a <= b
    ensures Shl(a, k) <= Shl(b, k)
    decreases k
  {
    if k > 0 {
      ShlMonotone(a, b, k - 1);
    }
  }

  /** The overflow test before a shift: `(m >> k) < a` exactly when `a << k` passes `m`. */
  lemma {:induction false} ShrBelow(m: nat, a: nat, k: nat)
    ensures Shr(m, k) < a <==> Shl(a, k) > m
    decreases k
  {
    if k > 0 {
      ShrBelow(m / 2, a, k - 1);
    }
  }

  lemma {:induction false} ShrStep(a: nat, k: nat)
    ensures Shr(a, k + 1) == Shr(a, k) / 2
    decreases k
  {
    if k > 0 {
      ShrStep(a / 2, k - 1);
    }
  }

  // ---- big-endian bit strings -------------------------------------------

  /** The low `n` bits of `v`, most significant first. */
  function BitsOf(v: nat, n: nat): (bs: seq<bit>)
    ensures |bs| == n
  {
    if n == 0 then [] else BitsOf(v / 2, n - 1) + [v % 2]
  }

  /** The bits of a byte string, eight per byte. */
  function BytesToBits(bs: Bytes): (r: seq<bit>)
    ensures |r| == 8 * |bs|
  {
    if bs == [] then [] else BitsOf(bs[0], 8) + BytesToBits(bs[1..])
  }

  function Ones(n: nat): (bs: seq<bit>)
    ensures |bs| == n
  {
    seq(n, _ => 1)
  }

  lemma {:induction false} BytesToBitsAppend(a: Bytes, b: Bytes)
    ensures BytesToBits(a + b) == BytesToBits(a) + BytesToBits(b)
  {
    if a == [] {
      assert a + b == b;
    } else {
      assert (a + b)[1..] == a[1..] + b;
      BytesToBitsAppend(a[1..], b);
    }
  }

  /** Splitting an n-bit number at bit m. */
  lemma {:induction false} BitsOfSplit(v: nat, n: nat, m: nat)
    requires m <= n
    ensures BitsOf(v, n) == BitsOf(Shr(v, m), n - m) + BitsOf(v, m)
  {
    if m == 0 {
      assert BitsOf(v, 0) == [];
    } else {
      BitsOfSplit(v / 2, n - 1, m - 1);
    }
  }

  /** Padding with zero bits is a left shift. */
  lemma {:induction false} BitsOfShl(v: nat, n: nat, k: nat)
    ensures BitsOf(Shl(v, k), n + k) == BitsOf(v, n) + BitsOf(0, k)
  {
    if k == 0 {
    } else {
      BitsOfShl(v, n, k - 1);
      assert BitsOf(0, k) == BitsOf(0, k - 1) + [0];
      assert BitsOf(Shl(v, k), n + k) == BitsOf(Shl(v, k - 1), n + k - 1) + [0];
    }
  }

  /** Bits above the low n do not show in the low n. */
  lemma {:induction false} BitsOfLow(q: nat, r: nat, n: nat)
    ensures BitsOf(Shl(q, n) + r, n) == BitsOf(r, n)
    decreases n
  {
    if n > 0 {
      BitsOfLow(q, r / 2, n - 1);
      assert (2 * Shl(q, n - 1) + r) / 2 == Shl(q, n - 1) + r / 2;
    }
  }

  /** The value of a bit string, most significant bit first. */
  function ValueOf(bits: seq<bit>): nat
  {
    if bits == [] then 0 else 2 * ValueOf(bits[..|bits| - 1]) + bits[|bits| - 1]
  }

  lemma {:induction false} ValueBits(bits: seq<bit>)
    ensures ValueOf(bits) < Shl(1, |bits|) && BitsOf(ValueOf(bits), |bits|) == bits
  {
    if bits != [] {
      ValueBits(bits[..|bits| - 1]);
    }
  }
}
