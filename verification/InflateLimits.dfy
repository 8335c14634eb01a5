/**
 * The limits of the inflater of lib/nghttp2_hd.c: whatever bytes arrive, its table stays within its maximum and that
 * within what the settings allow; and which dynamic table size updates it accepts.
 */
module InflateLimits {
  import opened Bytes
  import opened IntCodec
  import opened Huffman
  import opened StaticTable
  import opened DynamicTable
  import opened Inflate
  import opened InflateRuns
  import opened HpackGrammar

  // ---- memory ------------------------------------------------------------------------------

  predicate Bounded(st: Inflater) { Size(st.table) <= st.max <= st.settingsMax }

  predicate StaysBounded(o: Outcome) { o.Running? ==> Bounded(o.st) }

  lemma CommitBounded(st: Inflater)
    requires Bounded(st)
    ensures StaysBounded(Commit(st))
  {
    hide Insert, StaticField;
    var f := Field(if st.op.OpIndName? && st.index < IndexLimit(st.table) then Lookup(st.table, st.index).name
                   else st.name, st.value);
    InsertFits(st.table, f, st.max);
  }

  lemma LengthBounded(st: Inflater, b: byte)
    requires Bounded(st) && LengthPhase(st.phase)
    ensures StaysBounded(LengthByte(st, b))
  {
    hide IntStep, Commit, StaticField, EvictTo, Size;
    var s := IntStep(Resume(st.left, st.shift), b, LengthPrefix(st));
    if s.Done? && s.value <= LengthMax(st) {
      EvictFits(st.table, s.value);
      CommitBounded(st.(left := s.value, shift := 0, huff := Root, value := [],
                        phase := if st.huffman then ReadValueHuff else ReadValue));
    }
  }

  lemma TextBounded(st: Inflater, b: byte)
    requires Bounded(st) && st.left > 0
    ensures StaysBounded(TextByte(st, b))
  {
    hide Commit, DecodeByte, Accepting, Size;
    CommitBounded(AddText(st, [b]).(left := st.left - 1));
    var d := DecodeByte(st.huff, b);
    if d.Ok? { CommitBounded(AddText(st, d.out).(huff := d.state, left := st.left - 1)); }
  }

  lemma OpenBounded(st: Inflater, b: byte)
    requires Bounded(st)
    ensures StaysBounded(OpenByte(st, b))
  {
    hide LengthByte, Size;
    LengthBounded(Reset(st, ReadTableSize).(op := OpIndexed), b);
    LengthBounded(Reset(st, ReadIndex).(op := OpIndexed), b);
    var st' := st.(indexRequired := b >= 0x40, noIndex := 0x10 <= b < 0x20);
    LengthBounded(Reset(st', ReadIndex).(op := OpIndName), b);
  }

  lemma StepBounded(st: Inflater, b: byte)
    requires Bounded(st)
    ensures StaysBounded(Step(st, b))
  {
    hide LengthByte, TextByte, OpenByte, Size;
    OpenBounded(st, b);
    if LengthPhase(st.phase) { LengthBounded(st, b); }
    LengthBounded(Reset(st, NewNameReadNameLen).(huffman := b >= 0x80), b);
    LengthBounded(Reset(st, ReadValueLen).(huffman := b >= 0x80), b);
    if st.left > 0 { TextBounded(st, b); }
  }

  lemma {:induction false} RunBounded(st: Inflater, bs: Bytes)
    requires Bounded(st)
    ensures StaysBounded(Run(st, bs))
    decreases |bs|
  {
    hide Step, Bounded;
    if bs != [] {
      StepBounded(st, bs[0]);
      if Step(st, bs[0]).Running? { RunBounded(Step(st, bs[0]).st, bs[1..]); }
    }
  }

  /** All that can happen to an inflater; a rejected block is the end of the connection. */
  datatype Event = Feed(bs: Bytes) | EndBlock | Resize(settings: nat)

  function Serve(st: Inflater, es: seq<Event>): Option<Inflater>
    decreases |es|
  {
    if es == [] then Some(st)
    else
      match es[0]
      case Feed(bs) => (match Run(st, bs) case Rejected(_) => None case Running(t, _) => Serve(t, es[1..]))
      case EndBlock => Serve(EndHeaders(st), es[1..])
      case Resize(settings) => (match ChangeSize(st, settings) case None => None case Some(t) => Serve(t, es[1..]))
  }

  /** Whatever bytes arrive in whatever pieces: the table is within its maximum, and that within the settings. */
  lemma {:induction false} ServedBounded(st: Inflater, es: seq<Event>)
    requires Bounded(st)
    ensures Serve(st, es).Some? ==> Bounded(Serve(st, es).value)
    decreases |es|
  {
    hide Run, EvictTo, Size;
    if es != [] {
      match es[0]
      case Feed(bs) =>
        RunBounded(st, bs);
        if Run(st, bs).Running? { ServedBounded(Run(st, bs).st, es[1..]); }
      case EndBlock => ServedBounded(EndHeaders(st), es[1..]);
      case Resize(settings) =>
        EvictFits(st.table, settings);
        if ChangeSize(st, settings).Some? { ServedBounded(ChangeSize(st, settings).value, es[1..]); }
    }
  }

  lemma FreshBounded(es: seq<Event>)
    ensures Serve(InitInflater, es).Some? ==> Bounded(Serve(InitInflater, es).value)
  {
    assert Size([]) == 0;
    ServedBounded(InitInflater, es);
  }

  // ---- size updates -----------------------------------------------------------------------------

  /** An update, however it is encoded, is accepted exactly at the head of a block and within both limits. */
  lemma UpdateIff(st: Inflater, bs: Bytes, n: Item<nat>)
    requires AtRest(st) && bs != [] && 0x20 <= bs[0] < 0x40 && ReadInt(bs, 5) == Some(n)
    ensures if st.phase.Opcode? || n.it > st.settingsMax || n.it > st.minMax then Run(st, bs).Rejected?
            else
              var o := Run(st, bs[..n.used]);
              && o.Running? && o.out == [] && o.st.phase.InflateStart? && o.st.max == n.it
              && o.st.table == EvictTo(st.table, n.it) && o.st.settingsMax == st.settingsMax
              && o.st.minMax == UINT32_MAX
  {
    hide Run, ReadInt, EvictTo;
    var st' := SizePart(st, bs);
    if !(st.phase.Opcode? || n.it > st.settingsMax || n.it > st.minMax) { assert !View(st').begun && !View(st').due; }
  }

  /** While an update is due nothing else may open the block. */
  lemma UpdateFirst(st: Inflater, bs: Bytes)
    requires st.phase.ExpectTableSize? && bs != [] && !(0x20 <= bs[0] < 0x40)
    ensures Run(st, bs).Rejected?
  {
    FirstRejected(st, bs);
  }

  // ---- the smallest size since the last block ------------------------------------------------------

  /** The sizes set between two blocks. */
  function Resized(st: Inflater, sizes: seq<nat>): Inflater
    requires st.phase.ExpectTableSize? || st.phase.InflateStart?
    decreases |sizes|
  {
    if sizes == [] then st else Resized(ChangeSize(st, sizes[0]).value, sizes[1..])
  }

  function Previous(m: nat, sizes: seq<nat>, k: nat): nat
    requires k < |sizes|
  {
    if k == 0 then m else sizes[k - 1]
  }

  /** The size goes down at `k`. */
  predicate Falls(m: nat, sizes: seq<nat>, k: nat)
    requires k < |sizes|
  {
    sizes[k] < Previous(m, sizes, k)
  }

  /** The last time the size goes down. */
  ghost predicate LastFall(m: nat, sizes: seq<nat>, k: nat)
  {
    k < |sizes| && Falls(m, sizes, k) && forall i :: k < i < |sizes| ==> !Falls(m, sizes, i)
  }

  lemma TailFalls(m: nat, sizes: seq<nat>)
    requires sizes != []
    ensures forall k :: 0 < k < |sizes| ==> (Falls(m, sizes, k) <==> Falls(sizes[0], sizes[1..], k - 1))
    ensures forall k :: 0 <= k < |sizes| - 1 ==> (Falls(m, sizes, k + 1) <==> Falls(sizes[0], sizes[1..], k))
  {
  }

  /** What a list of changes leaves behind. */
  lemma {:induction false} ResizedExact(st: Inflater, sizes: seq<nat>)
    requires st.phase.ExpectTableSize? || st.phase.InflateStart?
    ensures var r := Resized(st, sizes);
            && (r.phase.ExpectTableSize? || r.phase.InflateStart?)
            && (sizes != [] ==> r.settingsMax == r.max == sizes[|sizes| - 1])
            && (r.phase.ExpectTableSize? <==>
                st.phase.ExpectTableSize? || exists k :: 0 <= k < |sizes| && Falls(st.max, sizes, k))
            && (forall k: nat :: LastFall(st.max, sizes, k) ==> r.minMax == sizes[k])
            && ((forall k :: 0 <= k < |sizes| ==> !Falls(st.max, sizes, k)) ==> r.minMax == st.minMax)
    decreases |sizes|
  {
    hide EvictTo, Falls;
    if sizes != [] {
      var st1, rest, m := ChangeSize(st, sizes[0]).value, sizes[1..], st.max;
      ResizedExact(st1, rest);
      TailFalls(m, sizes);
      FirstFalls(m, sizes);
      if k :| 0 <= k < |rest| && Falls(st1.max, rest, k) { assert Falls(m, sizes, k + 1); }
      if k :| 0 <= k < |sizes| && Falls(m, sizes, k) {
        if k > 0 { assert Falls(st1.max, rest, k - 1); }
      }
      forall k: nat | LastFall(m, sizes, k) ensures Resized(st, sizes).minMax == sizes[k] {
        if k > 0 {
          assert LastFall(st1.max, rest, k - 1) by {
            forall i | k - 1 < i < |rest| ensures !Falls(st1.max, rest, i) { assert !Falls(m, sizes, i + 1); }
          }
        } else {
          forall i | 0 <= i < |rest| ensures !Falls(st1.max, rest, i) { assert !Falls(m, sizes, i + 1); }
        }
      }
      if forall k :: 0 <= k < |sizes| ==> !Falls(m, sizes, k) {
        forall i | 0 <= i < |rest| ensures !Falls(st1.max, rest, i) { assert !Falls(m, sizes, i + 1); }
      }
    }
  }

  lemma FirstFalls(m: nat, sizes: seq<nat>)
    requires sizes != []
    ensures Falls(m, sizes, 0) <==> sizes[0] < m
  {
  }

  predicate Allows(st: Inflater, size: nat) { size <= st.minMax && size <= st.settingsMax }

  /**
   * Section 4.2 of RFC 7541 asks that the smallest size since the last block be signalled.  The inflater insists on it,
   * accepting exactly the updates to no more than every size that was set, if and only if the last time the size went
   * down it went down to the smallest.
   */
  lemma SmallestIff(st: Inflater, sizes: seq<nat>, j: nat)
    requires st.phase.InflateStart? && LastFall(st.max, sizes, j)
    ensures Resized(st, sizes).phase.ExpectTableSize?
    ensures (forall n: nat :: Allows(Resized(st, sizes), n) <==> forall k :: 0 <= k < |sizes| ==> n <= sizes[k]) <==>
            forall k :: 0 <= k < j ==> sizes[j] <= sizes[k]
  {
    hide Resized;
    ResizedExact(st, sizes);
    var r := Resized(st, sizes);
    NoFallSince(st.max, sizes, j, |sizes| - 1);
    forall k | j <= k < |sizes| ensures sizes[j] <= sizes[k] { NoFallSince(st.max, sizes, j, k); }
    assert forall n: nat :: Allows(r, n) <==> n <= sizes[j];
    if forall n: nat :: Allows(r, n) <==> forall k :: 0 <= k < |sizes| ==> n <= sizes[k] {
      assert Allows(r, sizes[j]);
    }
    if forall k :: 0 <= k < j ==> sizes[j] <= sizes[k] {
      forall n: nat ensures Allows(r, n) <==> forall k :: 0 <= k < |sizes| ==> n <= sizes[k] {
        if n <= sizes[j] {
          forall k | 0 <= k < |sizes| ensures n <= sizes[k] { assert k < j ==> sizes[j] <= sizes[k]; }
        }
      }
    }
  }

  lemma {:induction false} NoFallSince(m: nat, sizes: seq<nat>, j: nat, k: nat)
    requires LastFall(m, sizes, j) && j <= k < |sizes|
    ensures sizes[j] <= sizes[k]
    decreases k
  {
    if j < k {
      NoFallSince(m, sizes, j, k - 1);
      assert !Falls(m, sizes, k);
    }
  }

  /** Otherwise not: after 1000, 2000 and 1500 an update to 1500 is accepted. */
  lemma SmallestForgotten(st: Inflater)
    requires st.phase.InflateStart? && st.max >= 1001
    ensures Resized(st, [1000, 2000, 1500]).phase.ExpectTableSize? && Allows(Resized(st, [1000, 2000, 1500]), 1500)
  {
    var sizes := [1000, 2000, 1500];
    assert LastFall(st.max, sizes, 2);
    hide Resized;
    ResizedExact(st, sizes);
  }
}
