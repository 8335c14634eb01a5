/**
 * The inflater of lib/nghttp2_hd.c as a machine that takes one byte at a time.  InflaterObject shows that
 * the resumable switch statement, fed any pieces of a block, does exactly this.
 */
module Inflate {
  import opened Bytes
  import opened IntCodec
  import opened Huffman
  import opened StaticTable
  import opened DynamicTable

  const MAX_NV := 65536

  datatype Phase =
    | ExpectTableSize | InflateStart | Opcode
    | ReadTableSize | ReadIndex
    | NewNameCheckNameLen | NewNameReadNameLen | NewNameReadNameHuff | NewNameReadName
    | CheckValueLen | ReadValueLen | ReadValueHuff | ReadValue

  datatype Op = OpIndexed | OpNewName | OpIndName

  /** A decoded field; `noIndex` is the flag set for never-indexed literals. */
  datatype Header = Header(field: Field, noIndex: bool)

  /** `left` and `shift` hold the partial integer while a length is read, then the bytes to go. */
  datatype Inflater = Inflater(
    table: Table, max: nat, settingsMax: nat, minMax: nat,
    phase: Phase, op: Op, indexRequired: bool, noIndex: bool, huffman: bool,
    left: nat, shift: nat, index: nat, name: Bytes, value: Bytes, huff: Node)

  datatype Outcome = Rejected(out: seq<Header>) | Running(st: Inflater, out: seq<Header>)

  /** nghttp2_hd_inflate_init. */
  const InitInflater := Inflater([], 4096, 4096, UINT32_MAX, InflateStart, OpIndexed, false, false, false,
                                 0, 0, 0, [], [], Root)

  /** nghttp2_hd_inflate_change_table_size; None is NGHTTP2_ERR_INVALID_STATE. */
  function ChangeSize(st: Inflater, settings: nat): Option<Inflater>
  {
    if !st.phase.ExpectTableSize? && !st.phase.InflateStart? then None
    else
      var shrinks := st.max > settings;
      Some(st.(phase := if shrinks then ExpectTableSize else st.phase,
               minMax := if shrinks then settings else st.minMax,
               settingsMax := settings, max := settings, table := EvictTo(st.table, settings)))
  }

  // ---- reading lengths ----------------------------------------------------

  predicate LengthPhase(p: Phase)
  {
    p.ReadTableSize? || p.ReadIndex? || p.NewNameReadNameLen? || p.ReadValueLen?
  }

  function LengthPrefix(st: Inflater): (p: nat)
    ensures ValidPrefix(p)
  {
    match st.phase
    case ReadTableSize => 5
    case ReadIndex => if st.op.OpIndexed? then 7 else if st.indexRequired then 6 else 4
    case _ => 7
  }

  function LengthMax(st: Inflater): nat
  {
    match st.phase
    case ReadTableSize => if st.minMax <= st.settingsMax then st.minMax else st.settingsMax
    case ReadIndex => IndexLimit(st.table)
    case _ => MAX_NV
  }

  function Reset(st: Inflater, p: Phase): Inflater { st.(phase := p, left := 0, shift := 0, huff := Root) }

  /** What follows a completed length `v`. */
  function AfterLength(st: Inflater, v: nat): Outcome
    requires LengthPhase(st.phase) && v <= LengthMax(st)
  {
    match st.phase
    case ReadTableSize =>
      Running(Reset(st, InflateStart).(minMax := UINT32_MAX, max := v, table := EvictTo(st.table, v)), [])
    case ReadIndex =>
      if v == 0 then Rejected([])
      else if st.op.OpIndexed? then
        Running(Reset(st, Opcode).(index := v - 1), [Header(Lookup(st.table, v - 1), false)])
      else Running(Reset(st, CheckValueLen).(index := v - 1), [])
    case NewNameReadNameLen => AfterStringLength(st, v)
    case ReadValueLen => AfterStringLength(st, v)
  }

  function AfterStringLength(st: Inflater, v: nat): Outcome
    requires st.phase.NewNameReadNameLen? || st.phase.ReadValueLen?
  {
    var st' := st.(left := v, shift := 0, huff := Root);
    if st.phase.NewNameReadNameLen? then
      Running(st'.(phase := if st.huffman then NewNameReadNameHuff else NewNameReadName, name := []), [])
    else TextDone(st'.(phase := if st.huffman then ReadValueHuff else ReadValue, value := []))
  }

  function LengthByte(st: Inflater, b: byte): Outcome
    requires LengthPhase(st.phase)
  {
    match IntStep(Resume(st.left, st.shift), b, LengthPrefix(st))
    case More(n, shift) => if n > LengthMax(st) then Rejected([]) else Running(st.(left := n, shift := shift), [])
    case Done(v) => if v > LengthMax(st) then Rejected([]) else AfterLength(st, v)
    case _ => Rejected([])
  }

  // ---- strings ------------------------------------------------------------

  /** hd_inflate_commit_newname and hd_inflate_commit_indname. */
  function Commit(st: Inflater): Outcome
  {
    if st.op.OpIndName? && st.index >= IndexLimit(st.table) then Rejected([])
    else
      var f := Field(if st.op.OpIndName? then Lookup(st.table, st.index).name else st.name, st.value);
      Running(Reset(st, Opcode).(table := if st.indexRequired then Insert(st.table, f, st.max) else st.table),
              [Header(f, st.noIndex)])
  }

  predicate NamePhase(p: Phase) { p.NewNameReadName? || p.NewNameReadNameHuff? }

  predicate TextPhase(p: Phase) { NamePhase(p) || p.ReadValue? || p.ReadValueHuff? }

  function AddText(st: Inflater, out: Bytes): Inflater
  {
    if NamePhase(st.phase) then st.(name := st.name + out) else st.(value := st.value + out)
  }

  /** Moves on once no bytes of the string are left. */
  function TextDone(st: Inflater): Outcome
  {
    if st.left > 0 then Running(st, [])
    else if NamePhase(st.phase) then Running(Reset(st, CheckValueLen), [])
    else Commit(st)
  }

  /** One byte of a string, raw or Huffman coded; the last must leave the decoder accepting. */
  function TextByte(st: Inflater, b: byte): Outcome
    requires st.left > 0
  {
    if st.phase.NewNameReadName? || st.phase.ReadValue? then TextDone(AddText(st, [b]).(left := st.left - 1))
    else match DecodeByte(st.huff, b)
      case Fail => Rejected([])
      case Ok(h, out) =>
        if st.left == 1 && !Accepting(h) then Rejected([])
        else TextDone(AddText(st, out).(huff := h, left := st.left - 1))
  }

  // ---- one byte -----------------------------------------------------------

  predicate IsSizeUpdate(b: byte) { 0x20 <= b < 0x40 }

  /** The first byte of a representation. */
  function OpenByte(st: Inflater, b: byte): Outcome
  {
    if IsSizeUpdate(b) then
      if st.phase.Opcode? then Rejected([])
      else LengthByte(Reset(st, ReadTableSize).(op := OpIndexed), b)
    else if b >= 0x80 then LengthByte(Reset(st, ReadIndex).(op := OpIndexed), b)
    else
      var st' := st.(indexRequired := b >= 0x40, noIndex := 0x10 <= b < 0x20);
      if b == 0x40 || b == 0 || b == 0x10 then Running(Reset(st', NewNameCheckNameLen).(op := OpNewName), [])
      else LengthByte(Reset(st', ReadIndex).(op := OpIndName), b)
  }

  function Step(st: Inflater, b: byte): Outcome
  {
    match st.phase
    case ExpectTableSize => if IsSizeUpdate(b) then OpenByte(st, b) else Rejected([])
    case InflateStart => OpenByte(st, b)
    case Opcode => OpenByte(st, b)
    case ReadTableSize => LengthByte(st, b)
    case ReadIndex => LengthByte(st, b)
    case NewNameCheckNameLen => LengthByte(Reset(st, NewNameReadNameLen).(huffman := b >= 0x80), b)
    case NewNameReadNameLen => LengthByte(st, b)
    case NewNameReadNameHuff => if st.left == 0 then ValueStart(st, b) else TextByte(st, b)
    case NewNameReadName => if st.left == 0 then ValueStart(st, b) else TextByte(st, b)
    case CheckValueLen => ValueStart(st, b)
    case ReadValueLen => LengthByte(st, b)
    case ReadValueHuff => if st.left == 0 then Rejected([]) else TextByte(st, b)
    case ReadValue => if st.left == 0 then Rejected([]) else TextByte(st, b)
  }

  function ValueStart(st: Inflater, b: byte): Outcome
  {
    LengthByte(Reset(st, ReadValueLen).(huffman := b >= 0x80), b)
  }

  // ---- runs ---------------------------------------------------------------

  function Run(st: Inflater, bs: Bytes): Outcome
    decreases |bs|
  {
    if bs == [] then Running(st, [])
    else match Step(st, bs[0])
      case Rejected(out) => Rejected(out)
      case Running(t, out) => Prepend(out, Run(t, bs[1..]))
  }

  function Prepend(out: seq<Header>, o: Outcome): Outcome { o.(out := out + o.out) }

  /** Continues an outcome with more input. */
  function Continue(o: Outcome, more: Bytes): Outcome
  {
    match o
    case Rejected(_) => o
    case Running(t, out) => Prepend(out, Run(t, more))
  }

  lemma PrependTwice(a: seq<Header>, b: seq<Header>, o: Outcome)
    ensures Prepend(a, Prepend(b, o)) == Prepend(a + b, o)
  {
    assert a + (b + o.out) == a + b + o.out;
  }

  /** Where the input is cut does not matter. */
  lemma {:induction false} RunAppend(st: Inflater, a: Bytes, b: Bytes)
    ensures Run(st, a + b) == Continue(Run(st, a), b)
    decreases |a|
  {
    hide Step;
    if a == [] {
      assert a + b == b;
      assert [] + Run(st, b).out == Run(st, b).out;
    } else {
      assert (a + b)[1..] == a[1..] + b;
      var o := Step(st, a[0]);
      if o.Running? {
        RunAppend(o.st, a[1..], b);
        var r := Run(o.st, a[1..]);
        if r.Running? {
          PrependTwice(o.out, r.out, Run(r.st, b));
        }
      }
    }
  }

  /** A block may end only between representations. */
  predicate AtBoundary(st: Inflater) { st.phase.Opcode? || st.phase.InflateStart? }

  /** nghttp2_hd_inflate_end_headers. */
  function EndHeaders(st: Inflater): Inflater { st.(phase := InflateStart) }
}
