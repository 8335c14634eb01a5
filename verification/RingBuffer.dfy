/** hd_ringbuf of lib/nghttp2_hd.c: a power-of-two ring whose start counts down and wraps. */
module RingBuffer {
  import opened Bytes

  /** size_t values lie below this. */
  const SIZE_WRAP := 0x1_0000_0000_0000_0000

  /** `(first + i) & mask` in size_t arithmetic, for a mask of `length - 1`. */
  function Slot(first: nat, i: nat, length: nat): (s: nat)
    requires length > 0
    ensures s < length
  {
    (first + i) % SIZE_WRAP % length
  }

  predicate Divides(length: nat) { length > 0 && SIZE_WRAP % length == 0 }

  // ---- modular arithmetic --------------------------------------------------

  lemma ModUnique(x: int, d: int, q: int, r: int)
    requires d > 0 && 0 <= r < d && x == q * d + r
    ensures x % d == r
  {
    var q', r' := x / d, x % d;
    assert x == q' * d + r';
    assert (q - q') * d == r' - r;
    SmallMultiple(d, q - q');
  }

  /** The only multiple of d strictly between -d and d is zero. */
  lemma SmallMultiple(d: int, k: int)
    requires d > 0 && -d < k * d < d
    ensures k == 0
  {
    if k > 0 {
      MulAtLeast(d, k);
    } else if k < 0 {
      MulAtLeast(d, -k);
    }
  }

  lemma {:induction false} MulAtLeast(d: int, k: int)
    requires d > 0 && k > 0
    ensures k * d >= d
    decreases k
  {
    if k > 1 {
      MulAtLeast(d, k - 1);
      assert k * d == (k - 1) * d + d;
    }
  }

  /** Reducing modulo 2^64 first does not change the residue modulo a divisor of it. */
  lemma WrapThenMask(x: nat, length: nat)
    requires Divides(length)
    ensures x % SIZE_WRAP % length == x % length
  {
    var k := SIZE_WRAP / length;
    assert SIZE_WRAP == k * length;
    var q, r := x / SIZE_WRAP, x % SIZE_WRAP;
    var a, b := r / length, r % length;
    assert x == q * SIZE_WRAP + r;
    assert r == a * length + b;
    Regroup(q, k, length, a, b);
    ModUnique(x, length, q * k + a, b);
  }

  lemma Regroup(q: int, k: int, d: int, a: int, b: int)
    ensures q * (k * d) + (a * d + b) == (q * k + a) * d + b
  {
  }

  lemma SlotIsMod(first: nat, i: nat, length: nat)
    requires Divides(length)
    ensures Slot(first, i, length) == (first + i) % length
  {
    WrapThenMask(first + i, length);
  }

  /** Stepping the start back by one moves every element up by one position. */
  lemma SlotAfterPush(first: nat, i: nat, length: nat)
    requires Divides(length) && first < SIZE_WRAP
    ensures Slot((first + SIZE_WRAP - 1) % SIZE_WRAP, i + 1, length) == Slot(first, i, length)
  {
    if first == 0 {
      assert (SIZE_WRAP - 1) % SIZE_WRAP == SIZE_WRAP - 1;
      ModUnique(SIZE_WRAP + i, SIZE_WRAP, i / SIZE_WRAP + 1, i % SIZE_WRAP);
    } else {
      ModUnique(first + SIZE_WRAP - 1, SIZE_WRAP, 1, first - 1);
    }
  }

  lemma SlotsDistinct(first: nat, i: nat, j: nat, length: nat)
    requires Divides(length) && i < j < i + length
    ensures Slot(first, i, length) != Slot(first, j, length)
  {
    SlotIsMod(first, i, length);
    SlotIsMod(first, j, length);
    if (first + i) % length == (first + j) % length {
      CongruentClose(first + i, first + j, length);
    }
  }

  lemma CongruentClose(x: nat, y: nat, d: nat)
    requires d > 0 && x <= y < x + d && x % d == y % d
    ensures x == y
  {
    var q, q' := x / d, y / d;
    assert x == q * d + x % d && y == q' * d + y % d;
    assert (q' - q) * d == y - x;
    SmallMultiple(d, q' - q);
  }

  lemma SlotFromZero(i: nat, length: nat)
    requires Divides(length) && i < length
    ensures Slot(0, i, length) == i
  {
    SlotIsMod(0, i, length);
  }

  lemma {:induction false} PowerDivides(e: nat)
    requires e <= 64
    ensures Divides(Shl(1, e))
    decreases e
  {
    hide Shl;
    PowerProduct(e, 64 - e);
    At64();
    ModUnique(SIZE_WRAP, Shl(1, e), Shl(1, 64 - e), 0);
  }

  lemma {:induction false} PowerProduct(a: nat, b: nat)
    ensures Shl(1, a) * Shl(1, b) == Shl(1, a + b)
    decreases a
  {
    if a > 0 {
      PowerProduct(a - 1, b);
      var p, q := Shl(1, a - 1), Shl(1, b);
      assert 2 * p * q == 2 * (p * q);
    }
  }

  lemma At64()
    ensures Shl(1, 64) == SIZE_WRAP
  {
    assert Shl(1, 8) == 256;
    PowerProduct(8, 8);
    PowerProduct(16, 16);
    PowerProduct(32, 32);
  }

  // ---- the buffer ---------------------------------------------------------

  /** The least power of two that is at least `n`. */
  method PowerAtLeast(n: nat) returns (size: nat)
    requires n <= SIZE_WRAP
    ensures size >= n && Divides(size) && (size == 1 || size < 2 * n)
    ensures exists e: nat :: size == Shl(1, e)
  {
    ghost var e: nat := 0;
    size := 1;
    while size < n
      invariant e <= 64 && size == Shl(1, e) && (size == 1 || size < 2 * n)
      decreases n - size
    {
      BelowWrap(e);
      size := 2 * size;
      e := e + 1;
    }
    PowerDivides(e);
  }

  lemma BelowWrap(e: nat)
    requires Shl(1, e) < SIZE_WRAP
    ensures e < 64
  {
    if e >= 64 {
      ShlShl(1, 64, e - 64);
      At64();
    }
  }

  class RingBuf<T(0)> {
    var buffer: array<T>
    var mask: nat
    var first: nat
    var len: nat
    /** The elements, front first. */
    ghost var items: seq<T>

    ghost predicate Valid()
      reads this, buffer
    {
      && Divides(buffer.Length) && mask == buffer.Length - 1
      && first < SIZE_WRAP && len == |items| <= buffer.Length
      && forall i :: 0 <= i < len ==> buffer[Slot(first, i, buffer.Length)] == items[i]
    }

    constructor (bufsize: nat)
      requires bufsize <= SIZE_WRAP
      ensures Valid() && fresh(buffer) && items == []
      ensures bufsize <= buffer.Length && (buffer.Length == 1 || buffer.Length < 2 * bufsize)
      ensures exists e: nat :: buffer.Length == Shl(1, e)
    {
      var size := PowerAtLeast(bufsize);
      buffer := new T[size];
      mask, first, len := size - 1, 0, 0;
      items := [];
    }

    method Get(i: nat) returns (x: T)
      requires Valid() && i < len
      ensures x == items[i]
    {
      x := buffer[Slot(first, i, mask + 1)];
    }

    method Reserve(bufsize: nat)
      requires Valid() && bufsize <= SIZE_WRAP
      modifies this
      ensures Valid() && items == old(items) && buffer.Length >= bufsize
      ensures if old(buffer.Length) >= bufsize then buffer == old(buffer)
              else fresh(buffer) && buffer.Length < 2 * bufsize
    {
      if mask + 1 >= bufsize {
        return;
      }
      var size := PowerAtLeast(bufsize);
      var grown := new T[size];
      for i := 0 to len
        invariant forall j :: 0 <= j < i ==> grown[j] == items[j]
        modifies grown
      {
        var x := Get(i);
        grown[i] := x;
      }
      buffer, mask, first := grown, size - 1, 0;
      forall i | 0 <= i < len ensures buffer[Slot(first, i, buffer.Length)] == items[i] {
        SlotFromZero(i, buffer.Length);
      }
    }

    method PushFront(x: T)
      requires Valid() && len < SIZE_WRAP
      modifies this, buffer
      ensures Valid() && items == [x] + old(items)
      ensures buffer == old(buffer) || fresh(buffer)
    {
      Reserve(len + 1);
      StoreFront(x);
    }

    /** The write of hd_ringbuf_push_front once there is room. */
    method StoreFront(x: T)
      requires Valid() && len < buffer.Length
      modifies this, buffer
      ensures Valid() && items == [x] + old(items) && buffer == old(buffer)
    {
      ghost var first0, items0 := first, items;
      ghost var length := buffer.Length;
      first := (first + SIZE_WRAP - 1) % SIZE_WRAP;
      forall i | 0 <= i < len
        ensures Slot(first, i + 1, length) == Slot(first0, i, length)
        ensures Slot(first, i + 1, length) != Slot(first, 0, length)
      {
        SlotAfterPush(first0, i, length);
        SlotsDistinct(first, 0, i + 1, length);
      }
      buffer[Slot(first, 0, mask + 1)] := x;
      len := len + 1;
      items := [x] + items;
      assert forall i :: 1 <= i < len ==>
          Slot(first, i, length) == Slot(first0, i - 1, length) && items[i] == items0[i - 1];
    }

    method PopBack()
      requires Valid() && len > 0
      modifies this
      ensures Valid() && items == old(items)[..|old(items)| - 1] && buffer == old(buffer)
    {
      len := len - 1;
      items := items[..len];
    }
  }
}
