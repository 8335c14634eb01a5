/**
 * What a header block means, after sections 5 and 6 of RFC 7541: a list of representations, each read as a whole, and
 * what each of them does to the decoder.  The inflater accepts exactly the blocks that mean something here, and does
 * what they say, for every string of bytes.
 */
module HpackGrammar {
  import opened Bytes
  import opened IntCodec
  import opened Huffman
  import opened StaticTable
  import opened DynamicTable
  import opened Inflate
  import opened InflateRuns

  // ---- reading ------------------------------------------------------------------------------

  datatype Indexing = Incremental | Without | Never

  datatype Name = NewName(text: Bytes) | NameAt(index: nat)

  /** Indices are counted from 1, as they are sent. */
  datatype Rep = SizeUpdate(size: nat) | Indexed(index: nat) | Literal(indexing: Indexing, name: Name, value: Bytes)

  /** Something read from the front of the input, and the number of bytes it took. */
  datatype Item<T> = Item(it: T, used: nat)

  function ReadInt(bs: Bytes, prefix: nat): (r: Option<Item<nat>>)
    requires ValidPrefix(prefix)
    ensures r.Some? ==> 0 < r.value.used <= |bs|
  {
    var (s, k) := IntRun(Start, bs, prefix);
    if s.Done? then Some(Item(s.value, k)) else None
  }

  function ReadString(bs: Bytes): (r: Option<Item<Bytes>>)
    ensures r.Some? ==> 0 < r.value.used <= |bs|
  {
    match ReadInt(bs, 7)
    case None => None
    case Some(len) =>
      if len.it > MAX_NV || |bs| < len.used + len.it then None
      else
        var body := bs[len.used..len.used + len.it];
        if bs[0] < 0x80 then Some(Item(body, len.used + len.it))
        else
          var d := Walk(Root, BytesToBits(body));
          if d.Ok? && Accepting(d.state) then Some(Item(d.out, len.used + len.it)) else None
  }

  function ReadName(bs: Bytes, prefix: nat): (r: Option<Item<Name>>)
    requires ValidPrefix(prefix) && bs != []
    ensures r.Some? ==> 0 < r.value.used <= |bs|
  {
    if LowBits(bs[0], prefix) == 0 then
      match ReadString(bs[1..])
      case None => None
      case Some(s) => Some(Item(NewName(s.it), 1 + s.used))
    else
      match ReadInt(bs, prefix)
      case None => None
      case Some(n) => Some(Item(NameAt(n.it), n.used))
  }

  /** The bit patterns of section 6. */
  function ReadRep(bs: Bytes): (r: Option<Item<Rep>>)
    requires bs != []
    ensures r.Some? ==> 0 < r.value.used <= |bs|
  {
    if bs[0] >= 0x80 then
      match ReadInt(bs, 7)
      case None => None
      case Some(n) => Some(Item(Indexed(n.it), n.used))
    else if 0x20 <= bs[0] < 0x40 then
      match ReadInt(bs, 5)
      case None => None
      case Some(n) => Some(Item(SizeUpdate(n.it), n.used))
    else
      var indexing := if bs[0] >= 0x40 then Incremental else if bs[0] >= 0x10 then Never else Without;
      match ReadName(bs, if indexing.Incremental? then 6 else 4)
      case None => None
      case Some(n) =>
        match ReadString(bs[n.used..])
        case None => None
        case Some(v) => Some(Item(Literal(indexing, n.it, v.it), n.used + v.used))
  }

  // ---- meaning ------------------------------------------------------------------------------

  /** `due` tells that a size update must come first, `begun` that a field has come. */
  datatype Decoder = Decoder(table: Table, max: nat, settingsMax: nat, minMax: nat, due: bool, begun: bool)

  datatype Effect = Effect(decoder: Decoder, out: seq<Header>)

  predicate ValidIndex(d: Decoder, index: nat) { 1 <= index <= IndexLimit(d.table) }

  /** A size update must stand at the head of the block and keep to the limits; no field may come while one is due. */
  function Obey(d: Decoder, rep: Rep): Option<Effect>
  {
    match rep
    case SizeUpdate(size) =>
      if d.begun || size > d.minMax || size > d.settingsMax then None
      else Some(Effect(d.(table := EvictTo(d.table, size), max := size, minMax := UINT32_MAX, due := false), []))
    case Indexed(index) =>
      if d.due || !ValidIndex(d, index) then None
      else Some(Effect(d.(begun := true), [Header(Lookup(d.table, index - 1), false)]))
    case Literal(indexing, name, value) =>
      if d.due || (name.NameAt? && !ValidIndex(d, name.index)) then None
      else
        var f := Field(if name.NameAt? then Lookup(d.table, name.index - 1).name else name.text, value);
        var table := if indexing.Incremental? then Insert(d.table, f, d.max) else d.table;
        Some(Effect(d.(table := table, begun := true), [Header(f, indexing.Never?)]))
  }

  /** A whole block. */
  function Decode(d: Decoder, bs: Bytes): Option<Effect>
    decreases |bs|
  {
    if bs == [] then Some(Effect(d, []))
    else
      match ReadRep(bs)
      case None => None
      case Some(rep) =>
        match Obey(d, rep.it)
        case None => None
        case Some(e) =>
          match Decode(e.decoder, bs[rep.used..])
          case None => None
          case Some(rest) => Some(Effect(rest.decoder, e.out + rest.out))
  }

  // ---- the inflater ---------------------------------------------------------------------------

  predicate AtRest(st: Inflater) { st.phase.ExpectTableSize? || st.phase.InflateStart? || st.phase.Opcode? }

  function View(st: Inflater): Decoder
  {
    Decoder(st.table, st.max, st.settingsMax, st.minMax, st.phase.ExpectTableSize?, st.phase.Opcode?)
  }

  /** Refused, or waiting for the rest of something. */
  predicate Unfinished(o: Outcome) { o.Rejected? || !AtRest(o.st) }

  /** Equal in what a string in the making does not touch. */
  predicate SameContext(a: Inflater, b: Inflater)
  {
    && a.table == b.table && a.max == b.max && a.settingsMax == b.settingsMax && a.minMax == b.minMax && a.op == b.op
    && a.indexRequired == b.indexRequired && a.noIndex == b.noIndex && a.index == b.index
  }

  /** The outcome on a prefix decides the outcome as far as it is final. */
  lemma PrefixRejected(st: Inflater, bs: Bytes, k: nat)
    requires k <= |bs| && Run(st, bs[..k]).Rejected?
    ensures Run(st, bs).Rejected?
  {
    hide Run;
    assert bs == bs[..k] + bs[k..];
    RunAppend(st, bs[..k], bs[k..]);
  }

  lemma PrefixRun(st: Inflater, bs: Bytes, k: nat, st': Inflater)
    requires k <= |bs| && Run(st, bs[..k]) == Running(st', [])
    ensures Run(st, bs) == Run(st', bs[k..])
  {
    hide Run;
    assert bs == bs[..k] + bs[k..];
    RunAppend(st, bs[..k], bs[k..]);
    ContinueQuietly(st', bs[k..]);
  }

  lemma IntPart(st: Inflater, bs: Bytes)
    requires LengthPhase(st.phase) && st.left == 0 && bs != []
    ensures match ReadInt(bs, LengthPrefix(st))
            case None => Unfinished(Run(st, bs))
            case Some(n) => if n.it <= LengthMax(st) then Run(st, bs[..n.used]) == AfterLength(st, n.it)
                            else Run(st, bs).Rejected?
  {
    hide Run, AfterLength, IntRun;
    LengthOutcome(st, bs);
  }

  /** The body of a string whose length has been read. */
  lemma TextPart(st: Inflater, bs: Bytes, huffman: bool) returns (st': Inflater)
    requires TextPhase(st.phase) && st.left > 0 && st.huff == Root
    requires huffman == (st.phase.NewNameReadNameHuff? || st.phase.ReadValueHuff?)
    ensures if |bs| < st.left then Unfinished(Run(st, bs))
            else
              var body := bs[..st.left];
              var d := Walk(Root, BytesToBits(body));
              if huffman && !(d.Ok? && Accepting(d.state)) then Run(st, bs).Rejected?
              else
                && Run(st, body) == TextDone(st') && st'.left == 0 && st'.phase == st.phase && SameContext(st', st)
                && var s := if huffman then d.out else body;
                   if NamePhase(st.phase) then st'.name == st.name + s
                   else st'.value == st.value + s && st'.name == st.name
  {
    hide Run, Walk, TextDone, Accepting;
    var k := Min(|bs|, st.left);
    var part := bs[..k];
    var d := Walk(Root, BytesToBits(part));
    st' := AddText(st, if huffman then (if d.Ok? then d.out else []) else part);
    st' := st'.(left := st.left - k, huff := if huffman && d.Ok? then d.state else st.huff);
    if bs == [] {
      RunNothing(st);
    } else {
      if huffman { HuffChunk(st, part); } else { RawChunk(st, part); }
      if |bs| < st.left {
        assert part == bs;
        TextGoesOn(st');
      } else if huffman && (d.Fail? || !Accepting(d.state)) {
        PrefixRejected(st, bs, k);
      }
    }
  }

  predicate StringPhase(p: Phase) { p.NewNameReadNameLen? || p.ReadValueLen? }

  function BodyPhase(st: Inflater): Phase
  {
    if st.phase.NewNameReadNameLen? then (if st.huffman then NewNameReadNameHuff else NewNameReadName)
    else (if st.huffman then ReadValueHuff else ReadValue)
  }

  /** The length `n` of a string has been read. */
  function BodyState(st: Inflater, n: nat): Inflater
  {
    var st2 := st.(left := n, shift := 0, huff := Root, phase := BodyPhase(st));
    if st.phase.NewNameReadNameLen? then st2.(name := []) else st2.(value := [])
  }

  lemma LengthThenBody(st: Inflater, n: nat)
    requires StringPhase(st.phase) && n <= MAX_NV
    ensures n <= LengthMax(st) && LengthMax(st) == MAX_NV && LengthPrefix(st) == 7
    ensures AfterLength(st, n)
            == if st.phase.NewNameReadNameLen? then Running(BodyState(st, n), []) else TextDone(BodyState(st, n))
    ensures TextPhase(BodyPhase(st)) && (NamePhase(BodyPhase(st)) <==> st.phase.NewNameReadNameLen?)
    ensures st.huffman == (BodyPhase(st).NewNameReadNameHuff? || BodyPhase(st).ReadValueHuff?)
  {
    hide TextDone;
  }

  lemma BodyKeeps(st: Inflater, n: nat)
    requires StringPhase(st.phase)
    ensures var b := BodyState(st, n);
            && b.left == n && b.huff == Root && b.phase == BodyPhase(st) && SameContext(b, st)
            && if st.phase.NewNameReadNameLen? then b.name == [] else b.value == [] && b.name == st.name
  {
  }

  lemma ReadLong(bs: Bytes, len: Item<nat>)
    requires bs != [] && ReadInt(bs, 7) == Some(len) && len.it <= MAX_NV
    ensures var rest := bs[len.used..];
            if |rest| < len.it then ReadString(bs) == None
            else
              var d := Walk(Root, BytesToBits(rest[..len.it]));
              if bs[0] >= 0x80 && !(d.Ok? && Accepting(d.state)) then ReadString(bs) == None
              else ReadString(bs) == Some(Item(if bs[0] >= 0x80 then d.out else rest[..len.it], len.used + len.it))
  {
    hide Walk, Accepting, ReadInt;
    if |bs| >= len.used + len.it { assert bs[len.used..][..len.it] == bs[len.used..len.used + len.it]; }
  }

  /** A string that is not empty. */
  lemma LongPart(st: Inflater, bs: Bytes, len: Item<nat>) returns (st': Inflater)
    requires StringPhase(st.phase) && st.left == 0 && bs != [] && st.huffman == (bs[0] >= 0x80)
    requires ReadInt(bs, 7) == Some(len) && 0 < len.it <= MAX_NV
    ensures match ReadString(bs)
            case None => Unfinished(Run(st, bs))
            case Some(s) =>
              && st'.left == 0 && SameContext(st', st) && st'.phase == BodyPhase(st)
              && (if NamePhase(st'.phase) then st'.name == s.it else st'.value == s.it && st'.name == st.name)
              && Run(st, bs[..s.used]) == TextDone(st')
  {
    hide Run, Walk, Accepting, TextDone, ReadInt, AfterLength, LengthMax, LengthPrefix, ReadString, BodyState;
    var n, k := len.it, len.used;
    var st2 := BodyState(st, n);
    ReadLong(bs, len);
    LengthThenBody(st, n);
    BodyKeeps(st, n);
    IntPart(st, bs);
    TextGoesOn(st2);
    PrefixRun(st, bs, k, st2);
    st' := TextPart(st2, bs[k..], st.huffman);
    if |bs| >= k + n {
      var body, all := bs[k..][..n], bs[..k + n];
      assert all[..k] == bs[..k] && all[k..] == body && [] + body == body;
      PrefixRun(st, all, k, st2);
    }
  }

  lemma EmptyBody()
    ensures Walk(Root, BytesToBits([])) == Ok(Root, []) && Accepting(Root)
  {
    RootAccepts();
  }

  lemma TextCommits(st: Inflater)
    requires TextPhase(st.phase) && st.left == 0 && !NamePhase(st.phase)
    ensures TextDone(st) == Commit(st)
  {
    hide Commit;
  }

  /** Ready for a value; an empty name leaves the name phase without reading. */
  predicate AtValue(st: Inflater) { st.phase.CheckValueLen? || (NamePhase(st.phase) && st.left == 0) }

  lemma NamePart(st: Inflater, bs: Bytes) returns (st': Inflater)
    requires st.phase.NewNameCheckNameLen?
    ensures match ReadString(bs)
            case None => Unfinished(Run(st, bs))
            case Some(s) =>
              AtValue(st') && st'.name == s.it && SameContext(st', st) && Run(st, bs[..s.used]) == Running(st', [])
  {
    hide Run, Walk, Accepting, ReadInt, AfterLength, LengthMax, LengthPrefix, LengthByte;
    st' := st;
    if bs == [] {
      RunNothing(st);
      NothingRead(7);
    } else {
      var st1 := Reset(st, NewNameReadNameLen).(huffman := bs[0] >= 0x80);
      SameStart(st, st1, bs);
      LengthThenBody(st1, 0);
      IntPart(st1, bs);
      var len := ReadInt(bs, 7);
      if len.Some? && 0 < len.value.it <= MAX_NV {
        st' := LongPart(st1, bs, len.value);
        if ReadString(bs).Some? { st' := Reset(st', CheckValueLen); }
      } else if len.Some? && len.value.it == 0 {
        EmptyString(bs, len.value);
        st' := BodyState(st1, 0);
      }
    }
  }

  lemma ValuePart(st: Inflater, bs: Bytes) returns (st': Inflater)
    requires AtValue(st)
    ensures match ReadString(bs)
            case None => Unfinished(Run(st, bs))
            case Some(s) =>
              && st'.value == s.it && st'.name == st.name && SameContext(st', st)
              && Run(st, bs[..s.used]) == Commit(st')
  {
    hide Run, Walk, Accepting, ReadInt, AfterLength, LengthMax, LengthPrefix, LengthByte, Commit;
    st' := st;
    if bs == [] {
      RunNothing(st);
      NothingRead(7);
    } else {
      var st1 := Reset(st, ReadValueLen).(huffman := bs[0] >= 0x80);
      SameStart(st, st1, bs);
      LengthThenBody(st1, 0);
      IntPart(st1, bs);
      var len := ReadInt(bs, 7);
      if len.Some? && 0 < len.value.it <= MAX_NV {
        st' := LongPart(st1, bs, len.value);
        if ReadString(bs).Some? { TextCommits(st'); }
      } else if len.Some? && len.value.it == 0 {
        EmptyString(bs, len.value);
        st' := BodyState(st1, 0);
        TextCommits(st');
      }
    }
  }

  lemma NothingRead(prefix: nat)
    requires ValidPrefix(prefix)
    ensures ReadInt([], prefix) == None
  {
  }

  lemma EmptyString(bs: Bytes, len: Item<nat>)
    requires ReadInt(bs, 7) == Some(len) && len.it == 0
    ensures ReadString(bs) == Some(Item([], len.used))
  {
    hide ReadInt, Walk, Accepting;
    EmptyBody();
    assert bs[len.used..len.used + 0] == [];
  }

  /** Two states that take the first byte alike. */
  lemma SameStart(a: Inflater, b: Inflater, bs: Bytes)
    requires bs != [] && Step(a, bs[0]) == Step(b, bs[0])
    ensures Run(a, bs) == Run(b, bs) && forall k :: 0 < k <= |bs| ==> Run(a, bs[..k]) == Run(b, bs[..k])
  {
    hide Run, Step;
    SameStep(a, b, bs);
    forall k | 0 < k <= |bs| ensures Run(a, bs[..k]) == Run(b, bs[..k]) {
      assert bs[..k][0] == bs[0];
      SameStep(a, b, bs[..k]);
    }
  }

  // ---- one representation -----------------------------------------------------------------------

  /** What `bs` begins with, and what the inflater makes of it. */
  ghost predicate Means(st: Inflater, bs: Bytes, rep: Option<Item<Rep>>, st': Inflater)
  {
    match rep
    case None => Unfinished(Run(st, bs))
    case Some(r) =>
      match Obey(View(st), r.it)
      case None => Run(st, bs).Rejected?
      case Some(e) =>
        r.used <= |bs| && Run(st, bs[..r.used]) == Running(st', e.out) && AtRest(st') && View(st') == e.decoder
  }

  lemma MeansNothing(st: Inflater, bs: Bytes, rep: Option<Item<Rep>>)
    requires Run(st, bs).Rejected? && (rep.Some? ==> Obey(View(st), rep.value.it).None?)
    ensures Means(st, bs, rep, st)
  {
  }

  lemma FirstRejected(st: Inflater, bs: Bytes)
    requires bs != [] && Step(st, bs[0]) == Rejected([])
    ensures Run(st, bs).Rejected?
  {
    hide Step;
  }

  lemma SizePart(st: Inflater, bs: Bytes) returns (st': Inflater)
    requires AtRest(st) && bs != [] && 0x20 <= bs[0] < 0x40
    ensures Means(st, bs, ReadRep(bs), st')
  {
    hide Run, ReadInt, AfterLength, EvictTo, LengthByte;
    st' := st;
    if st.phase.Opcode? {
      FirstRejected(st, bs);
      MeansNothing(st, bs, ReadRep(bs));
    } else {
      var st1 := Reset(st, ReadTableSize).(op := OpIndexed);
      SameStart(st, st1, bs);
      IntPart(st1, bs);
      var n := ReadInt(bs, 5);
      if n.Some? && n.value.it <= LengthMax(st1) {
        st' := Reset(st1, InflateStart).(minMax := UINT32_MAX, max := n.value.it,
                                         table := EvictTo(st.table, n.value.it));
        SizeTaken(st1, n.value.it);
      }
    }
  }

  lemma SizeTaken(st: Inflater, v: nat)
    requires st.phase.ReadTableSize? && v <= LengthMax(st)
    ensures AfterLength(st, v)
            == Running(Reset(st, InflateStart).(minMax := UINT32_MAX, max := v, table := EvictTo(st.table, v)), [])
  {
  }

  lemma IndexedPart(st: Inflater, bs: Bytes) returns (st': Inflater)
    requires AtRest(st) && bs != [] && bs[0] >= 0x80
    ensures Means(st, bs, ReadRep(bs), st')
  {
    hide Run, ReadInt, AfterLength, LengthByte, StaticField;
    st' := st;
    if st.phase.ExpectTableSize? {
      FirstRejected(st, bs);
      MeansNothing(st, bs, ReadRep(bs));
    } else {
      var st1 := Reset(st, ReadIndex).(op := OpIndexed);
      SameStart(st, st1, bs);
      IntPart(st1, bs);
      var n := ReadInt(bs, 7);
      if n.Some? && n.value.it <= LengthMax(st1) {
        IndexTaken(st1, n.value.it);
        if n.value.it == 0 {
          PrefixRejected(st, bs, n.value.used);
        } else {
          st' := Reset(st1, Opcode).(index := n.value.it - 1);
        }
      }
    }
  }

  lemma IndexTaken(st: Inflater, v: nat)
    requires st.phase.ReadIndex? && v <= LengthMax(st)
    ensures LengthMax(st) == IndexLimit(st.table)
    ensures AfterLength(st, v)
            == if v == 0 then Rejected([])
               else if st.op.OpIndexed? then
                 Running(Reset(st, Opcode).(index := v - 1), [Header(Lookup(st.table, v - 1), false)])
               else Running(Reset(st, CheckValueLen).(index := v - 1), [])
  {
    hide StaticField;
  }

  /** The state in which the name of a literal is read. */
  function Opening(st: Inflater, indexing: Indexing): Inflater
  {
    st.(indexRequired := indexing.Incremental?, noIndex := indexing.Never?)
  }

  function IndexingOf(b: byte): Indexing
  {
    if b >= 0x40 then Incremental else if b >= 0x10 then Never else Without
  }

  predicate OpensLiteral(b: byte) { b < 0x20 || 0x40 <= b < 0x80 }

  /** What is known once the name has been read. */
  ghost predicate Named(st: Inflater, st2: Inflater, indexing: Indexing, name: Name)
  {
    && AtValue(st2) && st2.table == st.table && st2.max == st.max && st2.settingsMax == st.settingsMax
    && st2.minMax == st.minMax && st2.indexRequired == indexing.Incremental? && st2.noIndex == indexing.Never?
    && match name
       case NewName(text) => st2.op.OpNewName? && st2.name == text
       case NameAt(index) => st2.op.OpIndName? && index >= 1 && st2.index == index - 1 && index <= IndexLimit(st.table)
  }

  lemma LiteralName(st: Inflater, bs: Bytes) returns (st2: Inflater)
    requires AtRest(st) && !st.phase.ExpectTableSize? && bs != [] && OpensLiteral(bs[0])
    ensures var indexing := IndexingOf(bs[0]);
            match ReadName(bs, if indexing.Incremental? then 6 else 4)
            case None => Unfinished(Run(st, bs))
            case Some(n) =>
              if n.it.NameAt? && !ValidIndex(View(st), n.it.index) then Run(st, bs).Rejected?
              else Run(st, bs[..n.used]) == Running(st2, []) && Named(st, st2, indexing, n.it)
  {
    var indexing := IndexingOf(bs[0]);
    LowBitsZero(bs[0]);
    if LowBits(bs[0], if indexing.Incremental? then 6 else 4) == 0 {
      st2 := NewNamePart(st, bs, indexing);
    } else {
      st2 := NameIndexPart(st, bs, indexing);
    }
  }

  lemma LowBitsZero(b: byte)
    requires OpensLiteral(b)
    ensures LowBits(b, if IndexingOf(b).Incremental? then 6 else 4) == 0 <==> b == 0x40 || b == 0x10 || b == 0
  {
  }

  lemma NewNamePart(st: Inflater, bs: Bytes, indexing: Indexing) returns (st2: Inflater)
    requires AtRest(st) && !st.phase.ExpectTableSize?
    requires bs != [] && OpensLiteral(bs[0]) && indexing == IndexingOf(bs[0])
    requires bs[0] == 0x40 || bs[0] == 0x10 || bs[0] == 0
    ensures match ReadString(bs[1..])
            case None => Unfinished(Run(st, bs))
            case Some(n) =>
              Run(st, bs[..1 + n.used]) == Running(st2, []) && Named(st, st2, indexing, NewName(n.it))
  {
    hide Run, ReadString, LengthByte;
    var st1 := Reset(Opening(st, indexing), NewNameCheckNameLen).(op := OpNewName);
    assert Step(st, bs[0]) == Running(st1, []);
    assert bs[..1] == [bs[0]];
    SettleOne(st, bs[0], Running(st1, []));
    PrefixRun(st, bs, 1, st1);
    st2 := NamePart(st1, bs[1..]);
    var n := ReadString(bs[1..]);
    if n.Some? {
      var all := bs[..1 + n.value.used];
      assert all[..1] == bs[..1] && all[1..] == bs[1..][..n.value.used];
      PrefixRun(st, all, 1, st1);
    }
  }

  lemma NameIndexPart(st: Inflater, bs: Bytes, indexing: Indexing) returns (st2: Inflater)
    requires AtRest(st) && !st.phase.ExpectTableSize?
    requires bs != [] && OpensLiteral(bs[0]) && indexing == IndexingOf(bs[0])
    requires bs[0] != 0x40 && bs[0] != 0x10 && bs[0] != 0
    ensures match ReadInt(bs, if indexing.Incremental? then 6 else 4)
            case None => Unfinished(Run(st, bs))
            case Some(n) =>
              if !ValidIndex(View(st), n.it) then Run(st, bs).Rejected?
              else Run(st, bs[..n.used]) == Running(st2, []) && Named(st, st2, indexing, NameAt(n.it))
  {
    hide Run, ReadInt, AfterLength, LengthByte, StaticField;
    var st1 := Reset(Opening(st, indexing), ReadIndex).(op := OpIndName);
    assert Step(st, bs[0]) == LengthByte(st1, bs[0]) == Step(st1, bs[0]);
    SameStart(st, st1, bs);
    IntPart(st1, bs);
    var n := ReadInt(bs, if indexing.Incremental? then 6 else 4);
    st2 := st;
    if n.Some? && n.value.it <= LengthMax(st1) {
      IndexTaken(st1, n.value.it);
      if n.value.it == 0 {
        PrefixRejected(st, bs, n.value.used);
      } else {
        st2 := Reset(st1, CheckValueLen).(index := n.value.it - 1);
      }
    }
  }

  lemma CommitMeans(st: Inflater, st3: Inflater, indexing: Indexing, name: Name, value: Bytes)
    requires AtRest(st) && !st.phase.ExpectTableSize? && st3.value == value
    requires st3.table == st.table && st3.max == st.max && st3.settingsMax == st.settingsMax && st3.minMax == st.minMax
    requires st3.indexRequired == indexing.Incremental? && st3.noIndex == indexing.Never?
    requires match name
             case NewName(text) => st3.op.OpNewName? && st3.name == text
             case NameAt(index) => st3.op.OpIndName? && 1 <= index <= IndexLimit(st.table) && st3.index == index - 1
    ensures var e := Obey(View(st), Literal(indexing, name, value));
            e.Some? && Commit(st3).Running? && Commit(st3).out == e.value.out
            && AtRest(Commit(st3).st) && View(Commit(st3).st) == e.value.decoder
  {
    hide StaticField, Insert;
  }

  lemma LiteralPart(st: Inflater, bs: Bytes) returns (st': Inflater)
    requires AtRest(st) && bs != [] && OpensLiteral(bs[0])
    ensures Means(st, bs, ReadRep(bs), st')
  {
    hide Run, ReadInt, ReadString, ReadName, Insert, StaticField, Commit, LengthByte;
    st' := st;
    if st.phase.ExpectTableSize? {
      FirstRejected(st, bs);
      MeansNothing(st, bs, ReadRep(bs));
    } else {
      var indexing := IndexingOf(bs[0]);
      var n := ReadName(bs, if indexing.Incremental? then 6 else 4);
      var st2 := LiteralName(st, bs);
      if n.Some? && !(n.value.it.NameAt? && !ValidIndex(View(st), n.value.it.index)) {
        var k := n.value.used;
        PrefixRun(st, bs, k, st2);
        var st3 := ValuePart(st2, bs[k..]);
        var v := ReadString(bs[k..]);
        if v.Some? {
          var all := bs[..k + v.value.used];
          assert all[..k] == bs[..k] && all[k..] == bs[k..][..v.value.used];
          PrefixRun(st, all, k, st2);
          CommitMeans(st, st3, indexing, n.value.it, v.value.it);
          st' := Commit(st3).st;
        }
      }
    }
  }

  lemma RepPart(st: Inflater, bs: Bytes) returns (st': Inflater)
    requires AtRest(st) && bs != []
    ensures Means(st, bs, ReadRep(bs), st')
  {
    hide Means, ReadRep;
    if bs[0] >= 0x80 {
      st' := IndexedPart(st, bs);
    } else if 0x20 <= bs[0] < 0x40 {
      st' := SizePart(st, bs);
    } else {
      st' := LiteralPart(st, bs);
    }
  }

  /**
   * The inflater accepts exactly the blocks that mean something, emits the fields they mean, and ends in the state they
   * lead to, for every string of bytes and from every state in which a block, or its rest, may begin.
   */
  lemma {:induction false} InflaterDecodes(st: Inflater, bs: Bytes)
    requires AtRest(st)
    ensures var o, e := Run(st, bs), Decode(View(st), bs);
            && (e.Some? <==> o.Running? && AtRest(o.st))
            && (e.Some? ==> View(o.st) == e.value.decoder && o.out == e.value.out)
    decreases |bs|
  {
    hide Run, ReadRep, Obey;
    if bs == [] {
      RunNothing(st);
    } else {
      var st' := RepPart(st, bs);
      var rep := ReadRep(bs);
      if rep.Some? && Obey(View(st), rep.value.it).Some? {
        var k := rep.value.used;
        InflaterDecodes(st', bs[k..]);
        assert bs == bs[..k] + bs[k..];
        RunAppend(st, bs[..k], bs[k..]);
      }
    }
  }
}
