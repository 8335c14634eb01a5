/** Prefix-coded integers of section 5.1 of RFC 7541, as lib/nghttp2_hd.c reads and writes them. */
module IntCodec {
  import opened Bytes

  predicate ValidPrefix(prefix: nat) { 4 <= prefix <= 7 }

  /** `(1 << prefix) - 1`. */
  function PrefixMask(prefix: nat): (k: nat)
    requires ValidPrefix(prefix)
    ensures 15 <= k <= 127
  {
    match prefix
    case 4 => 15
    case 5 => 31
    case 6 => 63
    case _ => 127
  }

  /** `b & PrefixMask(prefix)`. */
  function LowBits(b: byte, prefix: nat): (r: byte)
    requires ValidPrefix(prefix)
    ensures r <= b && r <= PrefixMask(prefix)
  {
    match prefix
    case 4 => b % 16
    case 5 => b % 32
    case 6 => b % 64
    case _ => b % 128
  }

  lemma HighBits(b: byte, n: nat, prefix: nat)
    requires ValidPrefix(prefix) && n <= PrefixMask(prefix)
    ensures b - LowBits(b, prefix) + n < 256
    ensures LowBits(b - LowBits(b, prefix) + n, prefix) == n
  {
    match prefix
    case 4 => AlignedSum(b / 16, b % 16, n, 16);
    case 5 => AlignedSum(b / 32, b % 32, n, 32);
    case 6 => AlignedSum(b / 64, b % 64, n, 64);
    case _ => AlignedSum(b / 128, b % 128, n, 128);
  }

  lemma AlignedSum(q: nat, r: nat, n: nat, d: nat)
    requires d == 16 || d == 32 || d == 64 || d == 128
    requires r < d && n < d && d * q + r < 256
    ensures d * q + n < 256 && (d * q + r - r + n) % d == n
  {
  }

  // ---- encoding -----------------------------------------------------------

  function EncodeRest(n: nat): (bs: Bytes)
    ensures |bs| > 0
  {
    if n < 128 then [n] else [128 + n % 128] + EncodeRest(n / 128)
  }

  /** What encode_length leaves in a buffer whose first byte was `first`. */
  function EncodeInt(first: byte, n: nat, prefix: nat): (bs: Bytes)
    requires ValidPrefix(prefix)
    ensures |bs| > 0
  {
    HighBits(first, Min(n, PrefixMask(prefix)), prefix);
    var k := PrefixMask(prefix);
    var high := first - LowBits(first, prefix);
    if n < k then [high + n] else [high + k] + EncodeRest(n - k)
  }

  function Pow128(k: nat): nat { if k == 0 then 1 else 128 * Pow128(k - 1) }

  lemma {:induction false} DigitCount(n: nat, k: nat)
    requires k > 0
    ensures |EncodeRest(n)| <= k <==> n < Pow128(k)
    decreases k
  {
    if n >= 128 && k > 1 {
      DigitCount(n / 128, k - 1);
    } else if n >= 128 {
      assert |EncodeRest(n / 128)| >= 1;
    } else if k > 1 {
      DigitCount(n, k - 1);
    }
  }

  method CountEncodedLength(n: nat, prefix: nat) returns (len: nat)
    requires ValidPrefix(prefix)
    ensures forall first: byte :: len == |EncodeInt(first, n, prefix)|
  {
    var k := PrefixMask(prefix);
    if n < k {
      return 1;
    }
    var m := n - k;
    len := 1;
    while m >= 128
      invariant m >= 0 && len + |EncodeRest(m)| == 1 + |EncodeRest(n - k)|
    {
      m := m / 128;
      len := len + 1;
    }
    len := len + 1;
  }

  /** The loop of encode_length: the digits of `n` after the prefix byte. */
  method EncodeDigits(buf: array<byte>, start: nat, n: nat) returns (len: nat)
    requires start + |EncodeRest(n)| <= buf.Length
    modifies buf
    ensures len == start + |EncodeRest(n)|
    ensures buf[..len] == old(buf[..start]) + EncodeRest(n)
    ensures forall i :: len <= i < buf.Length ==> buf[i] == old(buf[i])
  {
    ghost var all := buf[..start] + EncodeRest(n);
    len := start;
    var m := n;
    while m >= 128
      invariant m >= 0 && len + |EncodeRest(m)| == |all|
      invariant buf[..len] + EncodeRest(m) == all
      invariant forall i :: len <= i < buf.Length ==> buf[i] == old(buf[i])
    {
      ghost var before := buf[..len];
      buf[len] := 128 + m % 128;
      assert buf[..len + 1] == before + [128 + m % 128];
      len := len + 1;
      m := m / 128;
    }
    ghost var before := buf[..len];
    buf[len] := m;
    assert buf[..len + 1] == before + [m];
    len := len + 1;
  }

  method EncodeLength(buf: array<byte>, n: nat, prefix: nat) returns (len: nat)
    requires ValidPrefix(prefix) && buf.Length > 0
    requires |EncodeInt(buf[0], n, prefix)| <= buf.Length
    modifies buf
    ensures len <= buf.Length
    ensures buf[..len] == EncodeInt(old(buf[0]), n, prefix)
    ensures forall i :: len <= i < buf.Length ==> buf[i] == old(buf[i])
  {
    var k := PrefixMask(prefix);
    HighBits(buf[0], Min(n, k), prefix);
    buf[0] := buf[0] - LowBits(buf[0], prefix);
    if n < k {
      buf[0] := buf[0] + n;
      return 1;
    }
    buf[0] := buf[0] + k;
    assert buf[..1] == [buf[0]];
    len := EncodeDigits(buf, 1, n - k);
  }

  // ---- decoding -----------------------------------------------------------

  /** Progress of decode_length: nothing read, a partial value, or an outcome. */
  datatype IntState = Start | More(n: nat, shift: nat) | Done(value: nat) | Overflow

  function FirstByte(b: byte, prefix: nat): (s: IntState)
    requires ValidPrefix(prefix)
    ensures s.More? || s.Done?
  {
    if LowBits(b, prefix) != PrefixMask(prefix) then Done(LowBits(b, prefix)) else More(PrefixMask(prefix), 0)
  }

  function NextByte(n: nat, shift: nat, b: byte): (s: IntState)
    ensures s.More? ==> n <= s.n <= UINT32_MAX || n > UINT32_MAX
    ensures !s.Start?
  {
    var add := b % 128;
    if shift >= 32 then Overflow
    else if Shr(UINT32_MAX, shift) < add then Overflow
    else if n + Shl(add, shift) > UINT32_MAX then Overflow
    else if b < 128 then Done(n + Shl(add, shift))
    else More(n + Shl(add, shift), shift + 7)
  }

  function IntStep(s: IntState, b: byte, prefix: nat): IntState
    requires ValidPrefix(prefix)
  {
    match s
    case Start => FirstByte(b, prefix)
    case More(n, shift) => NextByte(n, shift, b)
    case _ => s
  }

  /** Feeds bytes until an outcome; the second component counts the bytes used. */
  function IntRun(s: IntState, bs: Bytes, prefix: nat): (r: (IntState, nat))
    requires ValidPrefix(prefix)
    ensures r.1 <= |bs|
    decreases |bs|
  {
    if s.Done? || s.Overflow? || bs == [] then (s, 0)
    else
      var (t, k) := IntRun(IntStep(s, bs[0], prefix), bs[1..], prefix);
      (t, k + 1)
  }

  function Resume(initial: nat, shift: nat): IntState
  {
    if initial == 0 then Start else More(initial, shift)
  }

  /** The resumable decoder: -1 on overflow, otherwise the number of bytes used. */
  method DecodeLength(initial: nat, shift0: nat, inp: Bytes, prefix: nat)
    returns (rv: int, res: nat, shift: nat, fin: bool)
    requires ValidPrefix(prefix) && |inp| > 0 && initial <= UINT32_MAX
    requires initial == 0 ==> shift0 == 0
    ensures var (s, k) := IntRun(Resume(initial, shift0), inp, prefix);
            match s
            case Overflow => rv == -1
            case Done(v) => rv == k && fin && res == v
            case More(n, sh) => rv == k == |inp| && !fin && res == n && shift == sh
            case Start => false
  {
    hide LowBits, PrefixMask, Shl, Shr;
    MaskBound(prefix);
    var k := PrefixMask(prefix);
    ghost var start := Resume(initial, shift0);
    var n, i := initial, 0;
    shift, fin, res := 0, false, 0;
    if n == 0 {
      if LowBits(inp[0], prefix) != k {
        assert IntRun(Done(LowBits(inp[0], prefix)), inp[1..], prefix).1 == 0;
        return 1, LowBits(inp[0], prefix), 0, true;
      }
      n := k;
      i := 1;
      if i == |inp| {
        assert inp[1..] == [];
        return 1, n, 0, false;
      }
    }
    var sh := shift0;
    assert inp[0..] == inp;
    while i < |inp|
      invariant 0 <= i <= |inp| && n > 0 && n <= UINT32_MAX
      invariant IntRun(start, inp, prefix).0 == IntRun(More(n, sh), inp[i..], prefix).0
      invariant IntRun(start, inp, prefix).1 == i + IntRun(More(n, sh), inp[i..], prefix).1
    {
      var add := inp[i] % 128;
      assert inp[i..][1..] == inp[i + 1..];
      assert inp[i..][0] == inp[i];
      ghost var here := IntRun(NextByte(n, sh, inp[i]), inp[i + 1..], prefix);
      assert IntRun(More(n, sh), inp[i..], prefix) == (here.0, here.1 + 1);
      if sh >= 32 {
        return -1, 0, 0, false;
      }
      if Shr(UINT32_MAX, sh) < add {
        return -1, 0, 0, false;
      }
      add := Shl(add, sh);
      if UINT32_MAX - add < n {
        return -1, 0, 0, false;
      }
      n := n + add;
      if inp[i] < 128 {
        return i + 1, n, sh, true;
      }
      i := i + 1;
      sh := sh + 7;
    }
    assert inp[i..] == [];
    return i, n, sh, false;
  }

  // ---- round trip ---------------------------------------------------------

  lemma NextFits(n: nat, shift: nat, b: byte)
    requires shift < 32 && n + Shl(b % 128, shift) <= UINT32_MAX
    ensures NextByte(n, shift, b) == if b < 128 then Done(n + Shl(b % 128, shift))
                                     else More(n + Shl(b % 128, shift), shift + 7)
  {
    ShrBelow(UINT32_MAX, b % 128, shift);
  }

  lemma {:induction false} DecodeRest(n: nat, shift: nat, m: nat, rest: Bytes, prefix: nat)
    requires ValidPrefix(prefix)
    requires n + Shl(m, shift) <= UINT32_MAX && (m > 0 || shift == 0)
    ensures IntRun(More(n, shift), EncodeRest(m) + rest, prefix) == (Done(n + Shl(m, shift)), |EncodeRest(m)|)
    decreases m
  {
    hide NextByte, Shl, Shr;
    var bs := EncodeRest(m) + rest;
    ShiftInRange(m, shift);
    if m < 128 {
      NextFits(n, shift, m);
      assert IntRun(Done(n + Shl(m, shift)), bs[1..], prefix) == (Done(n + Shl(m, shift)), 0);
    } else {
      var low, high := m % 128, m / 128;
      SplitShift(m, shift);
      assert (128 + low) % 128 == low;
      NextFits(n, shift, 128 + low);
      assert bs[0] == 128 + low;
      assert bs[1..] == EncodeRest(high) + rest;
      DecodeRest(n + Shl(low, shift), shift + 7, high, rest, prefix);
    }
  }

  lemma {:induction false} SplitShift(m: nat, shift: nat)
    ensures Shl(m, shift) == Shl(m % 128, shift) + Shl(m / 128, shift + 7)
  {
    ShlAdd(m % 128, 128 * (m / 128), shift);
    var h := m / 128;
    ShlShl(h, 7, shift);
    assert Shl(h, 7) == 128 * h by {
      assert Shl(h, 3) == 8 * h;
      assert Shl(h, 5) == 32 * h;
    }
  }

  lemma {:induction false} ShiftInRange(m: nat, shift: nat)
    requires Shl(m, shift) <= UINT32_MAX && (m > 0 || shift == 0)
    ensures shift < 32
  {
    if shift >= 32 {
      ShlMonotone(1, m, shift);
      ShlShl(1, 32, shift - 32);
      OneAt32();
    }
  }

  lemma OneAt32()
    ensures Shl(1, 32) == 0x1_0000_0000
  {
    assert Shl(1, 8) == 256;
    ShlShl(1, 8, 8);
    assert Shl(256, 8) == 65536;
    ShlShl(1, 16, 8);
    assert Shl(65536, 8) == 0x100_0000;
    ShlShl(1, 24, 8);
    assert Shl(0x100_0000, 8) == 0x1_0000_0000;
  }

  /** Whatever follows it, an encoded integer decodes to itself and uses exactly its own bytes. */
  lemma {:induction false} IntRoundTrip(first: byte, n: nat, prefix: nat, rest: Bytes)
    requires ValidPrefix(prefix) && n <= UINT32_MAX
    ensures IntRun(Start, EncodeInt(first, n, prefix) + rest, prefix) == (Done(n), |EncodeInt(first, n, prefix)|)
  {
    hide NextByte, LowBits, Shr, PrefixMask, IntRun, EncodeRest;
    var k := PrefixMask(prefix);
    HighBits(first, Min(n, k), prefix);
    var b := first - LowBits(first, prefix) + Min(n, k);
    if n < k {
      ShortInt(b, rest, prefix);
    } else {
      var more := EncodeRest(n - k) + rest;
      LongInt(b, more, prefix);
      assert EncodeInt(first, n, prefix) + rest == [b] + more;
      DecodeRest(k, 0, n - k, rest, prefix);
    }
  }

  // ---- every encoding -----------------------------------------------------------

  /** Continuation bytes: all but the last have their top bit set. */
  predicate Continued(ds: Bytes)
  {
    ds != [] && ds[|ds| - 1] < 128 && forall i :: 0 <= i < |ds| - 1 ==> ds[i] >= 128
  }

  /** What they stand for in section 5.1 of RFC 7541, least significant first. */
  function DigitsValue(ds: Bytes): nat { if ds == [] then 0 else ds[0] % 128 + 128 * DigitsValue(ds[1..]) }

  lemma NextExact(n: nat, shift: nat, b: byte)
    requires n <= UINT32_MAX
    ensures NextByte(n, shift, b) == if shift >= 32 || n + Shl(b % 128, shift) > UINT32_MAX then Overflow
                                     else if b < 128 then Done(n + Shl(b % 128, shift))
                                     else More(n + Shl(b % 128, shift), shift + 7)
  {
    hide Shl, Shr;
    if shift < 32 && n + Shl(b % 128, shift) <= UINT32_MAX { NextFits(n, shift, b); }
  }

  lemma {:induction false} DigitsRun(n: nat, shift: nat, ds: Bytes, rest: Bytes, prefix: nat)
    requires ValidPrefix(prefix) && n <= UINT32_MAX && Continued(ds)
    ensures var v, r := n + Shl(DigitsValue(ds), shift), IntRun(More(n, shift), ds + rest, prefix);
            if shift + 7 * (|ds| - 1) < 32 && v <= UINT32_MAX then r == (Done(v), |ds|) else r.0.Overflow?
    decreases |ds|
  {
    hide NextByte, Shl;
    var bs := ds + rest;
    NextExact(n, shift, ds[0]);
    var low, high := ds[0] % 128, DigitsValue(ds[1..]);
    assert bs[0] == ds[0];
    if |ds| == 1 {
      assert DigitsValue(ds) == low;
    } else {
      assert ds[1..] + rest == bs[1..];
      assert (low + 128 * high) % 128 == low && (low + 128 * high) / 128 == high;
      SplitShift(DigitsValue(ds), shift);
      if shift < 32 && n + Shl(low, shift) <= UINT32_MAX {
        DigitsRun(n + Shl(low, shift), shift + 7, ds[1..], rest, prefix);
      }
    }
  }

  /**
   * Any encoding of an integer, the shortest or not, decodes to the value it stands for, unless that takes more than 32
   * bits or its continuation more than five bytes.
   */
  lemma IntExact(first: byte, ds: Bytes, rest: Bytes, prefix: nat)
    requires ValidPrefix(prefix)
    ensures LowBits(first, prefix) < PrefixMask(prefix) ==>
              IntRun(Start, [first] + rest, prefix) == (Done(LowBits(first, prefix)), 1)
    ensures LowBits(first, prefix) == PrefixMask(prefix) && Continued(ds) ==>
              var v, r := PrefixMask(prefix) + DigitsValue(ds), IntRun(Start, [first] + ds + rest, prefix);
              if |ds| <= 5 && v <= UINT32_MAX then r == (Done(v), 1 + |ds|) else r.0.Overflow?
  {
    hide NextByte, DigitsValue, LowBits, PrefixMask, IntRun, Continued;
    MaskBound(prefix);
    if LowBits(first, prefix) < PrefixMask(prefix) {
      ShortInt(first, rest, prefix);
    } else if LowBits(first, prefix) == PrefixMask(prefix) && Continued(ds) {
      LongInt(first, ds + rest, prefix);
      assert [first] + ds + rest == [first] + (ds + rest);
      DigitsRun(PrefixMask(prefix), 0, ds, rest, prefix);
      assert Shl(DigitsValue(ds), 0) == DigitsValue(ds);
    }
  }

  lemma MaskBound(prefix: nat)
    requires ValidPrefix(prefix)
    ensures 0 < PrefixMask(prefix) < 256
  {
  }

  lemma ShortInt(first: byte, rest: Bytes, prefix: nat)
    requires ValidPrefix(prefix) && LowBits(first, prefix) < PrefixMask(prefix)
    ensures IntRun(Start, [first] + rest, prefix) == (Done(LowBits(first, prefix)), 1)
  {
    hide NextByte, LowBits, PrefixMask;
    assert ([first] + rest)[0] == first;
  }

  lemma LongInt(first: byte, more: Bytes, prefix: nat)
    requires ValidPrefix(prefix) && LowBits(first, prefix) == PrefixMask(prefix)
    ensures var r := IntRun(More(PrefixMask(prefix), 0), more, prefix);
            IntRun(Start, [first] + more, prefix) == (r.0, r.1 + 1)
  {
    hide NextByte, LowBits, PrefixMask;
    assert ([first] + more)[0] == first && ([first] + more)[1..] == more;
  }
}
