/**
 * The two halves of HPACK stay together: every block the deflater emits is accepted by the inflater,
 * yields the fields that went in, and leaves both dynamic tables equal.
 */
module HeaderSync {
  import opened Bytes
  import opened IntCodec
  import opened Huffman
  import opened StaticTable
  import opened DynamicTable
  import D = Deflate
  import opened Inflate
  import opened InflateRuns

  // ---- lengths and strings ------------------------------------------------

  /** An encoded length, read in a length phase, leads to AfterLength. */
  lemma LengthRun(st: Inflater, first: byte, n: nat, rest: Bytes)
    requires LengthPhase(st.phase) && st.left == 0 && n <= LengthMax(st) && n <= UINT32_MAX
    ensures Run(st, EncodeInt(first, n, LengthPrefix(st)) + rest) == Continue(AfterLength(st, n), rest)
  {
    hide AfterLength, Run, EncodeInt;
    var enc := EncodeInt(first, n, LengthPrefix(st));
    IntRoundTrip(first, n, LengthPrefix(st), []);
    assert enc + [] == enc && enc[..|enc|] == enc;
    LengthOutcome(st, enc);
    RunAppend(st, enc, rest);
  }

  lemma FirstByteRange(first: byte, n: nat, prefix: nat)
    requires ValidPrefix(prefix) && LowBits(first, prefix) == 0
    ensures first <= EncodeInt(first, n, prefix)[0] <= first + PrefixMask(prefix)
    ensures n > 0 ==> EncodeInt(first, n, prefix)[0] > first
  {
    HighBits(first, Min(n, PrefixMask(prefix)), prefix);
  }

  /** Ready for the length of a value; an empty name leaves the name phase without reading. */
  predicate AtValue(st: Inflater) { st.phase.CheckValueLen? || (NamePhase(st.phase) && st.left == 0) }

  /** Equal in everything but the string being read. */
  predicate SameContext(a: Inflater, b: Inflater)
  {
    a.table == b.table && a.max == b.max && a.settingsMax == b.settingsMax && a.minMax == b.minMax
    && a.op == b.op && a.indexRequired == b.indexRequired && a.noIndex == b.noIndex && a.index == b.index
  }

  /** The length of a string, and the Huffman bit in front of it. */
  lemma StringHead(st: Inflater, s: Bytes, rest: Bytes)
    requires (st.phase.NewNameReadNameLen? || st.phase.ReadValueLen?) && st.left == 0
    requires |s| <= MAX_NV && st.huffman == D.UsesHuffman(s)
    ensures Run(st, D.EmitString(s) + rest) == Continue(AfterLength(st, |D.WireBody(s)|), D.WireBody(s) + rest)
    ensures (D.EmitString(s) + rest)[0] >= 0x80 <==> D.UsesHuffman(s)
  {
    hide Run, D.WireBody, D.UsesHuffman, EncodeInt, AfterLength;
    var first := if D.UsesHuffman(s) then 0x80 else 0;
    var body := D.WireBody(s);
    FirstByteRange(first, |body|, 7);
    var len := EncodeInt(first, |body|, 7);
    assert D.EmitString(s) + rest == len + (body + rest);
    LengthRun(st, first, |body|, body + rest);
  }

  /** The body of a string after its length: the text is added and the phase completed. */
  lemma StringBody(st: Inflater, s: Bytes, rest: Bytes) returns (st': Inflater)
    requires TextPhase(st.phase) && st.huff == Root && st.left == |D.WireBody(s)| > 0
    requires D.UsesHuffman(s) == (st.phase.NewNameReadNameHuff? || st.phase.ReadValueHuff?)
    ensures Run(st, D.WireBody(s) + rest) == Continue(TextDone(st'), rest)
    ensures st'.left == 0 && st'.phase == st.phase && SameContext(st', st)
    ensures if NamePhase(st.phase) then st'.name == st.name + s else st'.value == st.value + s && st'.name == st.name
  {
    hide Run, Walk, HuffEncode, TextDone;
    RunAppend(st, D.WireBody(s), rest);
    if st.phase.NewNameReadName? || st.phase.ReadValue? {
      RawChunk(st, s);
      st' := AddText(st, s).(left := 0);
    } else {
      HuffRoundTrip(s);
      var d := Walk(Root, BytesToBits(HuffEncode(s)));
      HuffChunk(st, HuffEncode(s));
      st' := AddText(st, s).(left := 0, huff := d.state);
    }
  }

  lemma EmptyBody(s: Bytes)
    ensures D.WireBody(s) == [] ==> s == []
  {
    hide Pack;
    if s != [] {
      HuffmanTable.TableIsCanonical(s[0]);
    }
  }

  lemma NameRun(st: Inflater, s: Bytes, rest: Bytes) returns (st': Inflater)
    requires st.phase.NewNameCheckNameLen? && |s| <= MAX_NV
    ensures Run(st, D.EmitString(s) + rest) == Run(st', rest)
    ensures AtValue(st') && st'.name == s && SameContext(st', st)
  {
    hide Run, D.WireBody, D.UsesHuffman, D.EmitString, StaticField;
    var bs := D.EmitString(s) + rest;
    var st1 := Reset(st, NewNameReadNameLen).(huffman := D.UsesHuffman(s));
    StringHead(st1, s, rest);
    assert Step(st, bs[0]) == LengthByte(st1, bs[0]) == Step(st1, bs[0]);
    SameStep(st, st1, bs);
    var body := D.WireBody(s);
    var st2 := AfterLength(st1, |body|).st;
    ContinueQuietly(st2, body + rest);
    if body == [] {
      EmptyBody(s);
      assert body + rest == rest;
      st' := st2;
    } else {
      var st3 := StringBody(st2, s, rest);
      st' := TextDone(st3).st;
      assert [] + s == s;
      ContinueQuietly(st', rest);
    }
  }

  lemma ValueRun(st: Inflater, s: Bytes, rest: Bytes) returns (st': Inflater)
    requires AtValue(st) && |s| <= MAX_NV
    ensures Run(st, D.EmitString(s) + rest) == Continue(Commit(st'), rest)
    ensures st'.value == s && st'.name == st.name && SameContext(st', st)
  {
    hide Run, D.WireBody, D.UsesHuffman, D.EmitString, StaticField, Commit;
    var bs := D.EmitString(s) + rest;
    var st1 := Reset(st, ReadValueLen).(huffman := D.UsesHuffman(s));
    StringHead(st1, s, rest);
    assert Step(st, bs[0]) == LengthByte(st1, bs[0]) == Step(st1, bs[0]);
    SameStep(st, st1, bs);
    var body := D.WireBody(s);
    var st2 := st1.(phase := if D.UsesHuffman(s) then ReadValueHuff else ReadValue, left := |body|, value := []);
    if body == [] {
      EmptyBody(s);
      assert body + rest == rest;
      st' := st2;
    } else {
      ContinueQuietly(st2, body + rest);
      st' := StringBody(st2, s, rest);
      assert [] + s == s;
    }
  }

  // ---- one field ----------------------------------------------------------

  /** Equal tables and limits, ready for the next representation. */
  predicate NextField(a: Inflater, table: Table, b: Inflater)
  {
    a.phase.Opcode? && a.table == table && a.max == b.max && a.settingsMax == b.settingsMax && a.minMax == b.minMax
  }

  lemma IndexedRun(st: Inflater, idx: nat, rest: Bytes) returns (st': Inflater)
    requires AtBoundary(st) && idx < IndexLimit(st.table) <= UINT32_MAX
    ensures Run(st, D.EmitIndexed(idx) + rest) == Prepend([Header(Lookup(st.table, idx), false)], Run(st', rest))
    ensures NextField(st', st.table, st)
  {
    hide Run, EncodeInt, StaticField;
    var enc := EncodeInt(0x80, idx + 1, 7);
    FirstByteRange(0x80, idx + 1, 7);
    var st1 := Reset(st, ReadIndex).(op := OpIndexed);
    assert Step(st, enc[0]) == LengthByte(st1, enc[0]) == Step(st1, enc[0]);
    SameStep(st, st1, enc + rest);
    LengthRun(st1, 0x80, idx + 1, rest);
    st' := AfterLength(st1, idx + 1).st;
  }

  /** A completed literal: emitted, and added to the table if indexing was asked for. */
  lemma CommitEmits(st: Inflater, f: Field, table: Table, index: bool, never: bool)
    requires st.value == f.value && st.table == table && st.noIndex == never && st.indexRequired == index
    requires if st.op.OpIndName? then st.index < IndexLimit(table) && Lookup(table, st.index).name == f.name
             else st.name == f.name
    ensures var o := Commit(st);
            o.Running? && o.out == [Header(f, never)]
            && NextField(o.st, if index then Insert(table, f, st.max) else table, st)
  {
    hide StaticField, Insert;
  }

  lemma NewNameRun(st: Inflater, nv: D.Nv, mode: D.Mode, rest: Bytes) returns (st': Inflater)
    requires AtBoundary(st) && |nv.name| <= MAX_NV && |nv.value| <= MAX_NV
    ensures Run(st, D.EmitNewName(nv, mode) + rest)
            == Prepend([Header(D.FieldOf(nv), mode.NeverIndexing?)], Run(st', rest))
    ensures NextField(st', if mode.WithIndexing? then Insert(st.table, D.FieldOf(nv), st.max) else st.table, st)
  {
    hide Run, D.EmitString, StaticField, Commit, Insert;
    var b := D.FirstByteOf(mode);
    var valuePart := D.EmitString(nv.value) + rest;
    var namePart := D.EmitString(nv.name) + valuePart;
    var bs := D.EmitNewName(nv, mode) + rest;
    assert bs == [b] + namePart;
    assert bs[0] == b && bs[1..] == namePart;
    RunUnfold(st, bs);
    var st1 := Step(st, b).st;
    PrependNothing(Run(st1, namePart));
    var st2 := NameRun(st1, nv.name, valuePart);
    var st3 := ValueRun(st2, nv.value, rest);
    CommitEmits(st3, D.FieldOf(nv), st.table, mode.WithIndexing?, mode.NeverIndexing?);
    st' := Commit(st3).st;
  }

  lemma IndexedNameRun(st: Inflater, idx: nat, nv: D.Nv, mode: D.Mode, rest: Bytes) returns (st': Inflater)
    requires AtBoundary(st) && idx < IndexLimit(st.table) <= UINT32_MAX && |nv.value| <= MAX_NV
    requires Lookup(st.table, idx).name == nv.name
    ensures Run(st, D.EmitIndexedName(idx, nv.value, mode) + rest)
            == Prepend([Header(D.FieldOf(nv), mode.NeverIndexing?)], Run(st', rest))
    ensures NextField(st', if mode.WithIndexing? then Insert(st.table, D.FieldOf(nv), st.max) else st.table, st)
  {
    hide Run, D.EmitString, StaticField, Commit, Insert, EncodeInt;
    var first := D.FirstByteOf(mode);
    var prefix := D.NamePrefix(mode);
    var enc := EncodeInt(first, idx + 1, prefix);
    var valuePart := D.EmitString(nv.value) + rest;
    var bs := D.EmitIndexedName(idx, nv.value, mode) + rest;
    assert bs == enc + valuePart;
    FirstByteRange(first, idx + 1, prefix);
    var st1 := Reset(st, ReadIndex)
               .(op := OpIndName, indexRequired := mode.WithIndexing?, noIndex := mode.NeverIndexing?);
    assert Step(st, enc[0]) == LengthByte(st1, enc[0]) == Step(st1, enc[0]);
    SameStep(st, st1, bs);
    LengthRun(st1, first, idx + 1, valuePart);
    var st2 := AfterLength(st1, idx + 1).st;
    PrependNothing(Run(st2, valuePart));
    var st3 := ValueRun(st2, nv.value, rest);
    CommitEmits(st3, D.FieldOf(nv), st.table, mode.WithIndexing?, mode.NeverIndexing?);
    st' := Commit(st3).st;
  }

  /** What the inflater reports for a field. */
  function Expected(nv: D.Nv, max: nat): Header { Header(D.FieldOf(nv), D.IndexingMode(nv, max).NeverIndexing?) }

  lemma FieldRun(st: Inflater, nv: D.Nv, rest: Bytes) returns (st': Inflater)
    requires AtBoundary(st) && IndexLimit(st.table) <= UINT32_MAX
    requires |nv.name| <= MAX_NV && |nv.value| <= MAX_NV
    ensures Run(st, D.DeflateNv(st.table, st.max, nv) + rest) == Prepend([Expected(nv, st.max)], Run(st', rest))
    ensures NextField(st', D.TableAfter(st.table, st.max, nv), st)
  {
    hide Run, D.EmitIndexed, D.EmitIndexedName, D.EmitNewName, D.IndexingMode, Insert, D.Search, Lookup;
    var f := D.FieldOf(nv);
    var mode := D.IndexingMode(nv, st.max);
    var r := D.Search(st.table, f, mode.NeverIndexing?);
    D.SearchSound(st.table, f, mode.NeverIndexing?);
    if r.exact {
      st' := IndexedRun(st, r.index, rest);
    } else if r.index == -1 {
      st' := NewNameRun(st, nv, mode, rest);
    } else {
      st' := IndexedNameRun(st, r.index, nv, mode, rest);
    }
  }

  // ---- header lists -------------------------------------------------------

  predicate FieldsFit(nvs: seq<D.Nv>)
  {
    forall i :: 0 <= i < |nvs| ==> |nvs[i].name| <= MAX_NV && |nvs[i].value| <= MAX_NV
  }

  function ExpectedList(nvs: seq<D.Nv>, max: nat): (hs: seq<Header>)
    ensures |hs| == |nvs|
    ensures forall i :: 0 <= i < |nvs| ==> hs[i] == Expected(nvs[i], max)
  {
    seq(|nvs|, i requires 0 <= i < |nvs| => Expected(nvs[i], max))
  }

  lemma TableStaysSmall(t: Table, max: nat, nv: D.Nv)
    requires Size(t) <= max
    ensures Size(D.TableAfter(t, max, nv)) <= max
  {
    hide D.IndexingMode, D.Search, Insert;
    InsertFits(t, D.FieldOf(nv), max);
  }

  lemma SmallTable(t: Table, max: nat)
    requires Size(t) <= max <= UINT32_MAX
    ensures IndexLimit(t) <= UINT32_MAX
  {
    CountBySize(t);
  }

  lemma {:induction false} ListRun(st: Inflater, nvs: seq<D.Nv>) returns (st': Inflater)
    requires AtBoundary(st) && Size(st.table) <= st.max <= UINT32_MAX && FieldsFit(nvs)
    ensures Run(st, D.DeflateList(st.table, st.max, nvs)) == Running(st', ExpectedList(nvs, st.max))
    ensures AtBoundary(st') && st'.table == D.TableAfterList(st.table, st.max, nvs) && Size(st'.table) <= st.max
    ensures st'.max == st.max && st'.settingsMax == st.settingsMax && st'.minMax == st.minMax
    decreases |nvs|
  {
    hide D.DeflateNv, D.TableAfter, Step;
    if nvs == [] {
      st' := st;
    } else {
      var rest := D.DeflateList(D.TableAfter(st.table, st.max, nvs[0]), st.max, nvs[1..]);
      SmallTable(st.table, st.max);
      var st1 := FieldRun(st, nvs[0], rest);
      TableStaysSmall(st.table, st.max, nvs[0]);
      st' := ListRun(st1, nvs[1..]);
      assert ExpectedList(nvs, st.max) == [Expected(nvs[0], st.max)] + ExpectedList(nvs[1..], st.max);
    }
  }

  // ---- table size updates -------------------------------------------------

  lemma SizeUpdateRun(st: Inflater, n: nat, rest: Bytes) returns (st': Inflater)
    requires (st.phase.ExpectTableSize? || st.phase.InflateStart?) && n <= UINT32_MAX
    requires n <= st.minMax && n <= st.settingsMax
    ensures Run(st, D.EmitTableSize(n) + rest) == Run(st', rest)
    ensures st'.phase.InflateStart? && st'.table == EvictTo(st.table, n) && st'.max == n
    ensures st'.settingsMax == st.settingsMax && st'.minMax == UINT32_MAX
  {
    hide Run, EncodeInt;
    var enc := EncodeInt(0x20, n, 5);
    FirstByteRange(0x20, n, 5);
    var st1 := Reset(st, ReadTableSize).(op := OpIndexed);
    assert Step(st, enc[0]) == LengthByte(st1, enc[0]) == Step(st1, enc[0]);
    SameStep(st, st1, enc + rest);
    LengthRun(st1, 0x20, n, rest);
    st' := AfterLength(st1, n).st;
    PrependNothing(Run(st', rest));
  }

  // ---- the link between the two ends -------------------------------------

  /** The smallest size the deflater has still to announce. */
  function Pending(d: D.Deflater): nat { if d.min <= d.max then d.min else d.max }

  /**
   * Between blocks.  With nothing to announce the tables and maxima agree; otherwise the deflater's
   * table is what the inflater's will be once it has read the announced sizes.
   */
  predicate Linked(d: D.Deflater, i: Inflater)
  {
    && Size(d.table) <= d.max <= d.cap
    && d.max <= UINT32_MAX && d.max <= i.settingsMax
    && (i.phase.InflateStart? || (i.phase.ExpectTableSize? && d.notify))
    && (if d.notify then
          && d.table == EvictTo(i.table, Pending(d))
          && Pending(d) <= i.minMax
          && (d.min <= d.max || d.max == d.cap)
        else
          d.table == i.table && d.max == i.max && d.min == UINT32_MAX && i.minMax == UINT32_MAX)
  }

  lemma InitiallyLinked(cap: nat)
    ensures Linked(D.InitDeflater(cap), InitInflater)
  {
  }

  /** Both ends applying the same SETTINGS_HEADER_TABLE_SIZE keeps the link. */
  lemma ResizeKeepsLink(d: D.Deflater, i: Inflater, settings: nat)
    requires Linked(d, i) && settings <= UINT32_MAX
    ensures ChangeSize(i, settings).Some? && Linked(D.ChangeSize(d, settings), ChangeSize(i, settings).value)
  {
    var next := Min(settings, d.cap);
    EvictFits(d.table, next);
    var d' := D.ChangeSize(d, settings);
    var i' := ChangeSize(i, settings).value;
    EvictTwice(i.table, settings, Pending(d'));
    if d.notify {
      EvictTwice(i.table, Pending(d), next);
    }
  }

  lemma SizeUpdatesRun(d: D.Deflater, i: Inflater, rest: Bytes) returns (i': Inflater)
    requires Linked(d, i)
    ensures Run(i, D.SizeUpdates(d) + rest) == Run(i', rest)
    ensures i'.phase.InflateStart? && i'.table == d.table && i'.max == d.max
    ensures i'.settingsMax == i.settingsMax && i'.minMax == UINT32_MAX
  {
    hide Run, EncodeInt, D.EmitTableSize;
    if !d.notify {
      assert [] + rest == rest;
      i' := i;
    } else if d.max > d.min {
      var second := D.EmitTableSize(d.max) + rest;
      assert D.SizeUpdates(d) + rest == D.EmitTableSize(d.min) + second;
      var i1 := SizeUpdateRun(i, d.min, second);
      i' := SizeUpdateRun(i1, d.max, rest);
      EvictNothing(d.table, d.max);
    } else {
      assert [] + D.EmitTableSize(d.max) == D.EmitTableSize(d.max);
      i' := SizeUpdateRun(i, d.max, rest);
    }
  }

  /** One block: accepted, the same fields in the same order, and the ends linked again with equal tables. */
  lemma BlockRoundTrip(d: D.Deflater, i: Inflater, nvs: seq<D.Nv>) returns (i': Inflater)
    requires Linked(d, i) && FieldsFit(nvs)
    ensures Run(i, D.DeflateBlock(d, nvs)) == Running(i', ExpectedList(nvs, d.max))
    ensures AtBoundary(i')
    ensures var d' := D.AfterBlock(d, nvs);
            Linked(d', EndHeaders(i')) && d'.table == i'.table && d'.max == i'.max
  {
    hide Run, D.SizeUpdates, D.DeflateList, D.TableAfterList;
    var i1 := SizeUpdatesRun(d, i, D.DeflateList(d.table, d.max, nvs));
    i' := ListRun(i1, nvs);
  }

  // ---- whole connections --------------------------------------------------

  /** A table-size change applied by both ends, or a header block sent from one to the other. */
  datatype Event = Resize(settings: nat) | Block(nvs: seq<D.Nv>)

  predicate ValidEvents(es: seq<Event>)
  {
    forall k :: 0 <= k < |es| ==> if es[k].Resize? then es[k].settings <= UINT32_MAX else FieldsFit(es[k].nvs)
  }

  datatype Exchange = Broken | Live(d: D.Deflater, i: Inflater, received: seq<seq<Field>>)

  function Fields(hs: seq<Header>): (fs: seq<Field>)
  {
    seq(|hs|, k requires 0 <= k < |hs| => hs[k].field)
  }

  /** Plays the events; Broken when the inflater refuses a change or a block. */
  function Play(d: D.Deflater, i: Inflater, es: seq<Event>): Exchange
    decreases |es|
  {
    if es == [] then Live(d, i, [])
    else match es[0]
      case Resize(settings) =>
        (match ChangeSize(i, settings)
         case None => Broken
         case Some(i') => Play(D.ChangeSize(d, settings), i', es[1..]))
      case Block(nvs) =>
        (match Run(i, D.DeflateBlock(d, nvs))
         case Rejected(_) => Broken
         case Running(i', hs) =>
           if !AtBoundary(i') then Broken
           else match Play(D.AfterBlock(d, nvs), EndHeaders(i'), es[1..])
             case Broken => Broken
             case Live(d2, i2, more) => Live(d2, i2, [Fields(hs)] + more))
  }

  /** The fields of each block, in the order they were handed to the deflater. */
  function Sent(es: seq<Event>): seq<seq<Field>>
  {
    if es == [] then []
    else if es[0].Resize? then Sent(es[1..])
    else [seq(|es[0].nvs|, k requires 0 <= k < |es[0].nvs| => D.FieldOf(es[0].nvs[k]))] + Sent(es[1..])
  }

  /** Every interleaving of blocks and size changes: nothing is refused and everything sent is received. */
  lemma {:induction false} ConnectionRoundTrip(d: D.Deflater, i: Inflater, es: seq<Event>)
    requires Linked(d, i) && ValidEvents(es)
    ensures var x := Play(d, i, es);
            x.Live? && x.received == Sent(es) && Linked(x.d, x.i)
            && (!x.d.notify ==> x.d.table == x.i.table && x.d.max == x.i.max)
    decreases |es|
  {
    hide Run, D.DeflateBlock, D.AfterBlock, D.ChangeSize, ChangeSize;
    if es != [] {
      assert ValidEvents(es[1..]);
      match es[0]
      case Resize(settings) =>
        ResizeKeepsLink(d, i, settings);
        ConnectionRoundTrip(D.ChangeSize(d, settings), ChangeSize(i, settings).value, es[1..]);
      case Block(nvs) =>
        var i' := BlockRoundTrip(d, i, nvs);
        ConnectionRoundTrip(D.AfterBlock(d, nvs), EndHeaders(i'), es[1..]);
        assert Fields(ExpectedList(nvs, d.max)) == Sent(es)[0];
    }
  }

  /** The promise for a fresh connection, whatever table size the deflater was configured with. */
  lemma FreshConnection(cap: nat, es: seq<Event>)
    requires ValidEvents(es)
    ensures var x := Play(D.InitDeflater(cap), InitInflater, es);
            x.Live? && x.received == Sent(es) && (!x.d.notify ==> x.d.table == x.i.table && x.d.max == x.i.max)
  {
    hide Play;
    InitiallyLinked(cap);
    ConnectionRoundTrip(D.InitDeflater(cap), InitInflater, es);
  }
}
