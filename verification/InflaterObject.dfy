/**
 * nghttp2_hd_inflater (lib/nghttp2_hd.c): the resumable switch statement.  Each call consumes part of a
 * header block; whatever the pieces, it does what the byte machine of module Inflate does.
 */
module InflaterObject {
  import opened Bytes
  import opened IntCodec
  import opened Huffman
  import opened StaticTable
  import opened DynamicTable
  import opened RingBuffer
  import opened TableObject
  import opened Inflate
  import opened InflateRuns

  /** One turn of the loop over the switch. */
  datatype Turn =
    | Refused                          // goto fail
    | Moved(used: nat)                 // break, with `used` bytes consumed
    | Busy(used: nat)                  // break with busy set: a value of known length follows
    | Starved                          // goto almost_ok: all input consumed in the middle of something
    | Produced(header: Header, used: nat)  // return with NGHTTP2_HD_INFLATE_EMIT

  /** What nghttp2_hd_inflate_hd_nv reports. */
  datatype Result = Failed | Emitted(header: Header, used: nat) | Consumed

  predicate BoundaryPhase(p: Phase) { p.ExpectTableSize? || p.InflateStart? || p.Opcode? }

  predicate ValuePhase(p: Phase) { p.CheckValueLen? || p.ReadValueLen? || p.ReadValueHuff? || p.ReadValue? }

  predicate NewNamePhase(p: Phase) { p.NewNameCheckNameLen? || p.NewNameReadNameLen? || NamePhase(p) }

  predicate HuffPhase(p: Phase) { p.NewNameReadNameHuff? || p.ReadValueHuff? }

  /** The members of the struct other than the table; `room` is the size of the buffer of the string being read. */
  datatype Members = Members(
    settingsMax: nat, minMax: nat, phase: Phase, op: Op, indexRequired: bool, noIndex: bool, huffman: bool,
    left: nat, shift: nat, index: nat, namebuf: Bytes, valuebuf: Bytes, room: nat, huffState: Node, huffAccept: bool)

  /** The machine's view: counters that no longer mean anything are read as reset. */
  function View(m: Members, table: Table, max: nat): Inflater
  {
    Inflater(table, max, m.settingsMax, m.minMax, m.phase, m.op, m.indexRequired, m.noIndex, m.huffman,
             if LengthPhase(m.phase) || TextPhase(m.phase) then m.left else 0,
             if LengthPhase(m.phase) then m.shift else 0,
             m.index, m.namebuf, m.valuebuf, if HuffPhase(m.phase) then m.huffState else Root)
  }

  /**
   * The rest of the string will fit in its buffer, with the null character behind it: a byte makes at most two
   * symbols, however the string is cut into pieces.
   */
  predicate RoomLeft(m: Members)
  {
    var text := if NamePhase(m.phase) then m.namebuf else m.valuebuf;
    TextPhase(m.phase) ==> |text| + (if HuffPhase(m.phase) then 2 * m.left else m.left) + 1 <= m.room
  }

  predicate Sound(m: Members, limit: nat)
  {
    && RoomLeft(m)
    && m.settingsMax <= UINT32_MAX && m.minMax <= UINT32_MAX && m.left <= UINT32_MAX
    && m.huffAccept == Accepting(m.huffState)
    && (LengthPhase(m.phase) && m.left == 0 ==> m.shift == 0)
    && (HuffPhase(m.phase) && m.left == 0 ==> m.huffAccept)
    && (NewNamePhase(m.phase) ==> m.op.OpNewName?)
    && (m.op.OpIndName? && ValuePhase(m.phase) ==> m.index < limit)
  }

  function InitMembers(): Members
  {
    Members(4096, UINT32_MAX, InflateStart, OpIndexed, false, false, false, 0, 0, 0, [], [], 0, Root, true)
  }

  lemma InitView()
    ensures Sound(InitMembers(), STATIC_TABLE_LENGTH) && View(InitMembers(), [], 4096) == InitInflater
  {
    hide Accepting;
    RootAccepts();
  }

  class HdInflater {
    const ctx: HdContext
    var m: Members
    var bad: bool

    ghost predicate Valid()
      reads this, ctx, ctx.ring, ctx.ring.buffer
    {
      ctx.Valid() && !ctx.hasMap && Sound(m, IndexLimit(ctx.Table()))
    }

    /** Between calls a value being read has bytes to go. */
    ghost predicate Resting()
      reads this
    {
      m.phase.ReadValue? || m.phase.ReadValueHuff? ==> m.left > 0
    }

    ghost function State(): Inflater
      reads this, ctx, ctx.ring
    {
      View(m, ctx.Table(), ctx.max)
    }

    /** nghttp2_hd_inflate_init. */
    constructor (hashOf: Bytes -> nat)
      ensures Valid() && Resting() && !bad && State() == InitInflater
      ensures fresh(ctx) && fresh(ctx.ring) && fresh(ctx.ring.buffer)
    {
      hide WellFormed, Chain, Size, Slot, Divides;
      ctx := new HdContext(false, hashOf);
      hide View, Sound;
      InitView();
      m := InitMembers();
      bad := false;
    }

    /** nghttp2_hd_inflate_change_table_size; false is NGHTTP2_ERR_INVALID_STATE. */
    method ChangeTableSize(settings: nat) returns (ok: bool)
      requires Valid() && settings <= UINT32_MAX
      modifies this`m, ctx, ctx.ring
      ensures Valid() && ctx.ring.buffer == old(ctx.ring.buffer)
      ensures ok == ChangeSize(old(State()), settings).Some?
      ensures State() == if ok then ChangeSize(old(State()), settings).value else old(State())
    {
      hide WellFormed, Chain, Size, Slot, Divides, EvictTo, View, Sound;
      ViewBasics(m, ctx.Table(), ctx.max);
      if !m.phase.ExpectTableSize? && !m.phase.InflateStart? {
        return false;
      }
      SizeMembersView(m, settings, ctx.Table(), ctx.max);
      var n := m.(settingsMax := settings);
      if ctx.max > settings {
        n := n.(phase := ExpectTableSize, minMax := settings);
      }
      m := n;
      ctx.max := settings;
      ctx.Shrink();
      return true;
    }

    /** nghttp2_hd_inflate_end_headers. */
    method EndOfHeaders()
      requires Valid() && AtBoundary(State())
      modifies this`m
      ensures Valid() && Resting() && State() == EndHeaders(old(State()))
    {
      m := m.(phase := InflateStart);
    }

    // ---- the cases of the switch --------------------------------------------

    /** EXPECT_TABLE_SIZE, INFLATE_START and OPCODE: look at the first byte of a representation. */
    method Open(rest: Bytes) returns (t: Turn)
      requires Valid() && BoundaryPhase(m.phase) && rest != []
      modifies this`m
      ensures Valid() && Resting()
      ensures match t
              case Refused => Step(old(State()), rest[0]) == Rejected([])
              case Moved(used) =>
                if used == 0 then LengthPhase(m.phase) && Step(old(State()), rest[0]) == Step(State(), rest[0])
                else used == 1 && Step(old(State()), rest[0]) == Running(State(), [])
              case _ => false
    {
      hide WellFormed, Chain, Size, Slot, Divides, Step, HasBits, OpenMembers;
      OpenStep(State(), rest[0]);
      var b := rest[0];
      FlagBits(b);
      if (m.phase.ExpectTableSize? && !HasBits(b, 32)) || (m.phase.Opcode? && HasBits(b, 32)) {
        return Refused;
      }
      var n := OpenMembers(m, b);
      OpenMembersView(m, b, ctx.Table(), ctx.max);
      m := n;
      return Moved(if n.phase.NewNameCheckNameLen? then 1 else 0);
    }

    /** NEWNAME_CHECK_NAMELEN and CHECK_VALUELEN: note the Huffman bit and fall through. */
    method BeginString(b: byte)
      requires Valid() && (m.phase.NewNameCheckNameLen? || m.phase.CheckValueLen?)
      modifies this`m
      ensures Valid() && m.phase == if old(m.phase).CheckValueLen? then ReadValueLen else NewNameReadNameLen
      ensures Step(old(State()), b) == Step(State(), b)
    {
      hide WellFormed, Chain, Size, Slot, Divides, Step;
      BeginStep(State(), b);
      m := m.(huffman := b >= 0x80, phase := if m.phase.CheckValueLen? then ReadValueLen else NewNameReadNameLen,
              left := 0, shift := 0);
    }

    /** hd_inflate_read_len. */
    method ReadLength(rest: Bytes, prefix: nat, maxlen: nat) returns (ok: bool, fin: bool, used: nat)
      requires Valid() && LengthPhase(m.phase) && rest != []
      requires prefix == LengthPrefix(State()) && maxlen == LengthMax(State())
      modifies this`m
      ensures m == old(m).(left := m.left, shift := m.shift) && used <= |rest|
      ensures !ok ==> Valid() && Run(old(State()), rest) == Rejected([])
      ensures ok && !fin ==> Valid() && used == |rest| && Run(old(State()), rest) == Running(State(), [])
      ensures ok && fin ==> used > 0 && m.left <= LengthMax(State()) && m.left <= UINT32_MAX
                            && Run(old(State()), rest[..used]) == AfterLength(State(), m.left)
    {
      hide WellFormed, Chain, Size, Slot, Divides, IntRun, Run, AfterLength;
      LengthOutcome(State(), rest);
      LengthFacts(m.left, m.shift, rest, prefix);
      var rv, out, sh, done := DecodeLength(m.left, m.shift, rest, prefix);
      if rv == -1 {
        return false, false, 0;
      }
      if out > maxlen {
        return false, false, 0;
      }
      AfterLengthIgnoresProgress(State(), out, sh);
      m := m.(left := out, shift := sh);
      return true, done, rv;
    }

    /** What follows a complete length: the ends of READ_TABLE_SIZE, READ_INDEX and the two string lengths. */
    method FinishLength() returns (t: Turn)
      requires ctx.Valid() && !ctx.hasMap && LengthPhase(m.phase) && m.left <= LengthMax(State())
      requires m.left <= UINT32_MAX
      requires Sound(m.(left := 0, shift := 0), IndexLimit(ctx.Table()))
      modifies this`m, ctx, ctx.ring
      ensures Valid() && ctx.ring.buffer == old(ctx.ring.buffer)
      ensures var o := AfterLength(old(State()), old(m.left));
              match t
              case Refused => o == Rejected([]) && LengthPhase(m.phase)
              case Moved(_) => o == Running(State(), []) && Resting()
              case Busy(_) => (m.phase.ReadValue? || m.phase.ReadValueHuff?) && o == TextDone(State())
              case Produced(h, _) => o == Running(State(), [h]) && Resting()
              case Starved => false
    {
      hide WellFormed, Chain, Size, Slot, Divides, StaticField, Commit;
      match m.phase
      case ReadTableSize =>
        FinishTableSize();
        return Moved(0);
      case ReadIndex =>
        t := FinishIndex();
      case NewNameReadNameLen =>
        t := FinishStringLength();
      case ReadValueLen =>
        t := FinishStringLength();
    }

    method FinishIndex() returns (t: Turn)
      requires ctx.Valid() && !ctx.hasMap && m.phase.ReadIndex? && m.left <= IndexLimit(ctx.Table())
      requires m.left <= UINT32_MAX
      requires Sound(m.(left := 0, shift := 0), IndexLimit(ctx.Table()))
      modifies this`m
      ensures Valid()
      ensures var o := AfterLength(old(State()), old(m.left));
              match t
              case Refused => o == Rejected([]) && LengthPhase(m.phase)
              case Moved(_) => o == Running(State(), []) && Resting()
              case Produced(h, _) => o == Running(State(), [h]) && Resting()
              case _ => false
    {
      hide WellFormed, Chain, Size, Slot, Divides, StaticField, Commit, View, Sound, AfterLength;
      IndexMembersView(m, ctx.Table(), ctx.max);
      if m.left == 0 {
        m := m.(shift := 0);
        return Refused;
      }
      if m.op.OpIndexed? {
        var f := Get(m.left - 1);
        m := m.(index := m.left - 1, phase := Opcode);
        return Produced(Header(f, false), 0);
      }
      m := m.(index := m.left - 1, phase := CheckValueLen);
      return Moved(0);
    }

    /** Starts the string whose length is now known; a value is committed at once when it is empty. */
    method FinishStringLength() returns (t: Turn)
      requires ctx.Valid() && !ctx.hasMap && (m.phase.NewNameReadNameLen? || m.phase.ReadValueLen?) && m.left <= MAX_NV
      requires Sound(m.(left := 0, shift := 0), IndexLimit(ctx.Table()))
      modifies this`m
      ensures Valid()
      ensures var o := AfterLength(old(State()), old(m.left));
              if old(m.phase).NewNameReadNameLen? then t == Moved(0) && o == Running(State(), []) && Resting()
              else t == Busy(0) && (m.phase.ReadValue? || m.phase.ReadValueHuff?) && o == TextDone(State())
    {
      hide WellFormed, Chain, Size, Slot, Divides, StringMembers, AfterStringLength, StaticField, EvictTo, TextDone;
      StringMembersSound(m, IndexLimit(ctx.Table()));
      StringMembersView(m, ctx.Table(), ctx.max);
      var named := m.phase.NewNameReadNameLen?;
      m := StringMembers(m);
      return if named then Moved(0) else Busy(0);
    }

    /** A dynamic table size update takes effect. */
    method FinishTableSize()
      requires ctx.Valid() && !ctx.hasMap && m.phase.ReadTableSize? && m.left <= LengthMax(State())
      requires m.left <= UINT32_MAX && Sound(m.(left := 0, shift := 0), IndexLimit(ctx.Table()))
      modifies this`m, ctx, ctx.ring
      ensures Valid() && Resting() && ctx.ring.buffer == old(ctx.ring.buffer)
      ensures AfterLength(old(State()), old(m.left)) == Running(State(), [])
    {
      hide WellFormed, Chain, Size, Slot, Divides, EvictTo;
      m := m.(minMax := UINT32_MAX, phase := InflateStart);
      ctx.max := m.left;
      ctx.Shrink();
    }

    /** nghttp2_hd_table_get. */
    method Get(idx: nat) returns (f: Field)
      requires ctx.Valid() && idx < IndexLimit(ctx.Table())
      ensures f == Lookup(ctx.Table(), idx)
    {
      hide StaticField, Chain, WellFormed, Size, Slot, Divides;
      if idx >= STATIC_TABLE_LENGTH {
        var e := ctx.ring.Get(idx - STATIC_TABLE_LENGTH);
        return e.field;
      }
      return StaticField(idx);
    }

    /** The prefix and the largest value of the integer at hand. */
    method LengthBounds() returns (prefix: nat, maxlen: nat)
      requires Valid() && LengthPhase(m.phase)
      ensures prefix == LengthPrefix(State()) && maxlen == LengthMax(State())
    {
      hide WellFormed, Chain, Size, Slot, Divides;
      prefix, maxlen := 7, MAX_NV;
      if m.phase.ReadTableSize? {
        prefix, maxlen := 5, Min(m.minMax, m.settingsMax);
      } else if m.phase.ReadIndex? {
        prefix := if m.op.OpIndexed? then 7 else if m.indexRequired then 6 else 4;
        maxlen := ctx.ring.len + STATIC_TABLE_LENGTH;
      }
    }

    /** READ_TABLE_SIZE, READ_INDEX, NEWNAME_READ_NAMELEN and READ_VALUELEN. */
    method LengthTurn(rest: Bytes) returns (t: Turn)
      requires Valid() && LengthPhase(m.phase) && rest != []
      modifies this`m, ctx, ctx.ring
      ensures Valid() && ctx.ring.buffer == old(ctx.ring.buffer)
      ensures t.Busy? || Resting()
      ensures match t
              case Refused => Run(old(State()), rest) == Rejected([])
              case Starved => LengthPhase(m.phase) && Run(old(State()), rest) == Running(State(), [])
              case Moved(used) => 0 < used <= |rest| && Resting()
                && Run(old(State()), rest[..used]) == Running(State(), [])
              case Busy(used) =>
                && 0 < used <= |rest| && (m.phase.ReadValue? || m.phase.ReadValueHuff?)
                && Run(old(State()), rest[..used]) == TextDone(State())
              case Produced(h, used) =>
                0 < used <= |rest| && Resting() && Run(old(State()), rest[..used]) == Running(State(), [h])
    {
      hide WellFormed, Chain, Size, Slot, Divides, Run, AfterLength, TextDone;
      var prefix, maxlen := LengthBounds();
      var ok, fin, used := ReadLength(rest, prefix, maxlen);
      if !ok {
        return Refused;
      }
      if !fin {
        return Starved;
      }
      ghost var before := old(State());
      t := FinishLength();
      match t
      case Refused => RejectPrefix(before, rest, used);
      case Moved(_) => t := Moved(used);
      case Busy(_) => t := Busy(used);
      case Produced(h, _) => t := Produced(h, used);
    }

    /** hd_inflate_commit_newname and hd_inflate_commit_indname. */
    method CommitLiteral() returns (h: Header)
      requires Valid() && (m.phase.ReadValue? || m.phase.ReadValueHuff?)
      modifies this`m, ctx, ctx.ring, ctx.ring.buffer
      ensures Valid() && Resting() && (ctx.ring.buffer == old(ctx.ring.buffer) || fresh(ctx.ring.buffer))
      ensures Commit(old(State())) == Running(State(), [h])
    {
      hide WellFormed, Chain, Size, Slot, Divides, StaticField, Insert, Accepting;
      var name := m.namebuf;
      if m.op.OpIndName? {
        var f := Get(m.index);
        name := f.name;
      }
      var f := Field(name, m.valuebuf);
      h := Header(f, m.noIndex);
      if m.indexRequired {
        ctx.AddIncremental(f);
      }
      m := m.(phase := Opcode);
    }

    /** hd_inflate_read_huff: as much of the string as the input holds, within the buffer made for it. */
    method ReadHuff(rest: Bytes) returns (ok: bool, used: nat)
      requires Valid() && HuffPhase(m.phase)
      modifies this`m
      ensures ok ==> Valid() && m.phase == old(m.phase)
      ensures ok ==> used == Min(|rest|, old(m.left)) && m.left == old(m.left) - used
      ensures ok ==> if used == 0 then State() == old(State()) else Run(old(State()), rest[..used]) == TextDone(State())
      ensures ok ==> RoomLeft(m) && m.room == old(m.room)
      ensures !ok ==> m == old(m) && m.left > 0 && Run(old(State()), rest) == Rejected([])
    {
      hide WellFormed, Chain, Size, Slot, Divides, Run, TextDone, Walk, BytesToBits, Accepting, AddText, View, Sound,
        RoomLeft, AddMembers;
      HuffBasics(m, ctx.Table(), ctx.max);
      used := Min(|rest|, m.left);
      var fin := |rest| >= m.left;
      var h, accept, out;
      ok, h, accept, out := HuffDecode(m.huffState, m.huffAccept, rest[..used], fin);
      HuffPlan(m, ctx.Table(), ctx.max, rest, ok, h, accept, out);
      if !ok { return; }
      m := AddMembers(m, out, used).(huffState := h, huffAccept := accept);
    }

    /** hd_inflate_read. */
    method ReadRaw(rest: Bytes) returns (ok: bool, used: nat)
      requires Valid() && TextPhase(m.phase) && !HuffPhase(m.phase)
      modifies this`m
      ensures ok ==> Valid() && m.phase == old(m.phase)
      ensures ok ==> used == Min(|rest|, old(m.left)) && m.left == old(m.left) - used
      ensures ok ==> if used == 0 then State() == old(State()) else Run(old(State()), rest[..used]) == TextDone(State())
      ensures !ok ==> m == old(m) && m.left > 0 && Run(old(State()), rest) == Rejected([])
    {
      hide WellFormed, Chain, Size, Slot, Divides, Run, TextDone, Accepting, AddText;
      used := Min(|rest|, m.left);
      var s := rest[..used];
      if used > 0 {
        RawChunk(State(), s);
      }
      RawMembersView(m, s, ctx.Table(), ctx.max);
      m := AddMembers(m, s, used);
      ok := true;
    }

    method ReadText(rest: Bytes) returns (ok: bool, used: nat)
      requires Valid() && TextPhase(m.phase)
      modifies this`m
      ensures ok ==> Valid() && m.phase == old(m.phase)
      ensures ok ==> used == Min(|rest|, old(m.left)) && m.left == old(m.left) - used
      ensures ok ==> if used == 0 then State() == old(State()) else Run(old(State()), rest[..used]) == TextDone(State())
      ensures !ok ==> m == old(m) && m.left > 0 && Run(old(State()), rest) == Rejected([])
    {
      hide Run, TextDone, Accepting;
      if HuffPhase(m.phase) {
        ok, used := ReadHuff(rest);
      } else {
        ok, used := ReadRaw(rest);
      }
    }

    /** NEWNAME_READ_NAMEHUFF and NEWNAME_READ_NAME. */
    method NameTurn(rest: Bytes) returns (t: Turn)
      requires Valid() && NamePhase(m.phase) && rest != []
      modifies this`m
      ensures Valid() && Resting()
      ensures match t
              case Refused => Run(old(State()), rest) == Rejected([])
              case Starved => Run(old(State()), rest) == Running(State(), []) && NamePhase(m.phase)
              case Moved(used) =>
                && used <= |rest| && m.phase.CheckValueLen?
                && if used == 0 then Step(old(State()), rest[0]) == Step(State(), rest[0])
                   else Run(old(State()), rest[..used]) == Running(State(), [])
              case _ => false
    {
      hide WellFormed, Chain, Size, Slot, Divides, Run, Step, Accepting;
      EmptyNameStep(State(), rest[0]);
      var ok, used := ReadText(rest);
      if !ok {
        return Refused;
      }
      if m.left > 0 {
        assert rest[..used] == rest;
        return Starved;
      }
      m := m.(phase := CheckValueLen);
      return Moved(used);
    }

    /** READ_VALUEHUFF and READ_VALUE. */
    method ValueTurn(rest: Bytes) returns (t: Turn)
      requires Valid() && (m.phase.ReadValue? || m.phase.ReadValueHuff?)
      modifies this`m, ctx, ctx.ring, ctx.ring.buffer
      ensures Valid() && Resting() && (ctx.ring.buffer == old(ctx.ring.buffer) || fresh(ctx.ring.buffer))
      ensures old(m.left) == 0 ==> t.Produced?
      ensures match t
              case Refused => Run(old(State()), rest) == Rejected([])
              case Starved =>
                old(m.left) > 0 && Run(old(State()), rest) == Running(State(), [])
                && (m.phase.ReadValue? || m.phase.ReadValueHuff?)
              case Produced(h, used) =>
                && used <= |rest|
                && if old(m.left) == 0 then used == 0 && TextDone(old(State())) == Running(State(), [h])
                   else used > 0 && Run(old(State()), rest[..used]) == Running(State(), [h])
              case _ => false
    {
      hide WellFormed, Chain, Size, Slot, Divides, Run, Commit, Accepting, StaticField;
      RunNothing(State());
      var ok, used := ReadText(rest);
      if !ok {
        return Refused;
      }
      if m.left > 0 {
        assert rest[..used] == rest;
        return Starved;
      }
      var h := CommitLiteral();
      return Produced(h, used);
    }

    /** One turn of the switch on the input that is left. */
    method Switch(rest: Bytes) returns (t: Turn)
      requires Valid() && (if m.phase.ReadValue? || m.phase.ReadValueHuff? then true else rest != [])
      modifies this`m, ctx, ctx.ring, ctx.ring.buffer
      ensures Valid() && (ctx.ring.buffer == old(ctx.ring.buffer) || fresh(ctx.ring.buffer))
      ensures t.Busy? || Resting()
      ensures match t
              case Refused => Run(old(State()), rest) == Rejected([])
              case Starved => Run(old(State()), rest) == Running(State(), []) && !BoundaryPhase(m.phase)
              case Moved(used) =>
                && used <= |rest| && rest != []
                && (if used == 0 then Step(old(State()), rest[0]) == Step(State(), rest[0])
                                     && Rank(m.phase) < Rank(old(m.phase))
                    else Run(old(State()), rest[..used]) == Running(State(), []))
              case Busy(used) =>
                && 0 < used <= |rest| && (m.phase.ReadValue? || m.phase.ReadValueHuff?)
                && Run(old(State()), rest[..used]) == TextDone(State())
              case Produced(h, used) =>
                && used <= |rest|
                && if used == 0 then TextDone(old(State())) == Running(State(), [h])
                     && (old(m.phase).ReadValue? || old(m.phase).ReadValueHuff?)
                   else Run(old(State()), rest[..used]) == Running(State(), [h])
      ensures old(Resting()) && t.Produced? ==> t.used > 0
      ensures old(m.phase).ReadValue? || old(m.phase).ReadValueHuff? ==>
                if old(m.left) == 0 then t.Produced? && t.used == 0 else t.Refused? || t.Starved? || t.Produced?
    {
      hide WellFormed, Chain, Size, Slot, Divides, Run, Step, TextDone, Accepting;
      if m.phase.ReadValue? || m.phase.ReadValueHuff? {
        t := ValueTurn(rest);
      } else if BoundaryPhase(m.phase) {
        OneByte(State(), rest);
        t := Open(rest);
      } else if NamePhase(m.phase) {
        t := NameTurn(rest);
      } else {
        t := LengthCases(rest);
      }
    }

    /** The phases that read a length, after noting the Huffman bit where the source falls through. */
    method LengthCases(rest: Bytes) returns (t: Turn)
      requires Valid() && rest != []
      requires LengthPhase(m.phase) || m.phase.NewNameCheckNameLen? || m.phase.CheckValueLen?
      modifies this`m, ctx, ctx.ring
      ensures Valid() && ctx.ring.buffer == old(ctx.ring.buffer)
      ensures t.Busy? || Resting()
      ensures match t
              case Refused => Run(old(State()), rest) == Rejected([])
              case Starved => Run(old(State()), rest) == Running(State(), []) && LengthPhase(m.phase)
              case Moved(used) => 0 < used <= |rest| && Run(old(State()), rest[..used]) == Running(State(), [])
              case Busy(used) =>
                && 0 < used <= |rest| && (m.phase.ReadValue? || m.phase.ReadValueHuff?)
                && Run(old(State()), rest[..used]) == TextDone(State())
              case Produced(h, used) => 0 < used <= |rest| && Run(old(State()), rest[..used]) == Running(State(), [h])
    {
      hide WellFormed, Chain, Size, Slot, Divides, Run, Step, TextDone, Accepting;
      if !LengthPhase(m.phase) {
        BeginString(rest[0]);
      }
      ghost var mid := State();
      SamePrefixes(old(State()), mid, rest);
      t := LengthTurn(rest);
    }

    /** nghttp2_hd_inflate_hd_nv: runs until a field is complete, the input ends or decoding fails. */
    method InflateHdNv(inp: Bytes, final: bool) returns (r: Result)
      requires Valid() && Resting()
      modifies this`m, this`bad, ctx, ctx.ring, ctx.ring.buffer
      ensures Valid() && (ctx.ring.buffer == old(ctx.ring.buffer) || fresh(ctx.ring.buffer))
      ensures bad == r.Failed? && (old(bad) ==> r.Failed?)
      ensures !old(bad) ==>
                var o := Run(old(State()), inp);
                match r
                case Failed => o == Rejected([]) || (final && o.Running? && o.out == [] && !AtBoundary(o.st))
                case Emitted(h, used) => 0 < used <= |inp|
                  && Run(old(State()), inp[..used]) == Running(State(), [h]) && Resting()
                case Consumed => o == Running(State(), []) && Resting() && (final ==> AtBoundary(State()))
    {
      hide WellFormed, Chain, Size, Slot, Divides, Run, Step, TextDone, Accepting, View, Sound, Tracks;
      if bad {
        return Failed;
      }
      ghost var start := State();
      var i := 0;
      var busy := false;
      ghost var peeked := false;
      RunNothing(start);
      assert inp[..0] == [];
      while i < |inp| || busy
        invariant Valid() && 0 <= i <= |inp| && !bad
        invariant ctx.ring.buffer == old(ctx.ring.buffer) || fresh(ctx.ring.buffer)
        invariant !busy ==> Resting()
        invariant busy ==> i > 0 && (m.phase.ReadValue? || m.phase.ReadValueHuff?)
        invariant busy ==> Run(start, inp[..i]) == TextDone(State())
        invariant !busy && !peeked ==> Run(start, inp[..i]) == Running(State(), [])
        invariant peeked ==> !busy && i < |inp| && Tracks(start, inp, i, State())
        decreases |inp| - i, Rank(m.phase), if busy then 1 else 0
      {
        ghost var st := State();
        var rest := inp[i..];
        ViewBasics(m, ctx.Table(), ctx.max);
        BusyIsSettled(st);
        if !peeked && !(busy && m.left == 0) {
          TracksFromHere(start, inp, i, st);
        }
        var t := Switch(rest);
        ViewBasics(m, ctx.Table(), ctx.max);
        match t {
          case Refused =>
            WholeRest(start, inp, i, st);
            bad := true;
            return Failed;
          case Starved =>
            WholeRest(start, inp, i, st);
            if final {
              bad := true;
              return Failed;
            }
            return Consumed;
          case Produced(h, used) =>
            if used > 0 {
              TrackAt(start, inp, i, st, used);
            }
            return Emitted(h, i + used);
          case Moved(used) =>
            if used == 0 {
              StillTracks(start, inp, i, st, State());
            } else {
              TrackAt(start, inp, i, st, used);
            }
            i, peeked, busy := i + used, used == 0, false;
          case Busy(used) =>
            TrackAt(start, inp, i, st, used);
            i, peeked, busy := i + used, false, true;
        }
      }
      assert inp[..i] == inp;
      ViewBasics(m, ctx.Table(), ctx.max);
      if final && !m.phase.Opcode? && !m.phase.InflateStart? {
        bad := true;
        return Failed;
      }
      return Consumed;
    }
  }

  /** Phases that may be left without consuming input. */
  function Rank(p: Phase): nat { if BoundaryPhase(p) || NamePhase(p) then 1 else 0 }

  /** Input from position i on is treated by `st` as the whole input is by `start`. */
  ghost predicate Tracks(start: Inflater, inp: Bytes, i: nat, st: Inflater)
    requires i <= |inp|
  {
    forall k :: 0 < k <= |inp| - i ==> Run(start, inp[..i + k]) == Run(st, inp[i..][..k])
  }

  lemma TracksFromHere(start: Inflater, inp: Bytes, i: nat, st: Inflater)
    requires i <= |inp| && Run(start, inp[..i]) == Running(st, [])
    ensures Tracks(start, inp, i, st)
  {
    hide Run;
    forall k | 0 < k <= |inp| - i ensures Run(start, inp[..i + k]) == Run(st, inp[i..][..k]) {
      assert inp[..i + k] == inp[..i] + inp[i..][..k];
      RunAppend(start, inp[..i], inp[i..][..k]);
      ContinueQuietly(st, inp[i..][..k]);
    }
  }

  lemma TrackAt(start: Inflater, inp: Bytes, i: nat, st: Inflater, k: nat)
    requires i <= |inp| && Tracks(start, inp, i, st) && 0 < k <= |inp| - i
    ensures Run(start, inp[..i + k]) == Run(st, inp[i..][..k])
  {
    hide Run;
  }

  /** The whole of the remaining input, which may be empty only if nothing was skipped over. */
  lemma WholeRest(start: Inflater, inp: Bytes, i: nat, st: Inflater)
    requires i <= |inp| && Tracks(start, inp, i, st) && (i == |inp| ==> Run(start, inp[..i]) == Running(st, []))
    ensures Run(start, inp) == Run(st, inp[i..])
  {
    hide Run;
    if i == |inp| {
      assert inp[..i] == inp && inp[i..] == [];
      RunNothing(st);
    } else {
      TrackAt(start, inp, i, st, |inp| - i);
      assert inp[..i + (|inp| - i)] == inp && inp[i..][..|inp| - i] == inp[i..];
    }
  }

  lemma StillTracks(start: Inflater, inp: Bytes, i: nat, st: Inflater, st': Inflater)
    requires i < |inp| && Tracks(start, inp, i, st) && Step(st, inp[i..][0]) == Step(st', inp[i..][0])
    ensures Tracks(start, inp, i, st')
  {
    hide Run, Step;
    forall k | 0 < k <= |inp| - i ensures Run(start, inp[..i + k]) == Run(st', inp[i..][..k]) {
      SameStep(st, st', inp[i..][..k]);
    }
  }

  lemma SamePrefixes(a: Inflater, b: Inflater, rest: Bytes)
    requires rest != [] && Step(a, rest[0]) == Step(b, rest[0])
    ensures Run(a, rest) == Run(b, rest)
    ensures forall k :: 0 < k <= |rest| ==> Run(a, rest[..k]) == Run(b, rest[..k])
  {
    hide Run, Step;
    SameStep(a, b, rest);
    forall k | 0 < k <= |rest| ensures Run(a, rest[..k]) == Run(b, rest[..k]) {
      SameStep(a, b, rest[..k]);
    }
  }

  lemma OneByte(st: Inflater, rest: Bytes)
    requires rest != []
    ensures Run(st, rest[..1]) == Step(st, rest[0])
    ensures Step(st, rest[0]) == Rejected([]) ==> Run(st, rest) == Rejected([])
  {
    hide Step;
    SettleOne(st, rest[0], Step(st, rest[0]));
    assert rest[..1] == [rest[0]];
  }

  lemma ViewBasics(m: Members, table: Table, max: nat)
    ensures View(m, table, max).phase == m.phase
    ensures TextPhase(m.phase) ==> View(m, table, max).left == m.left
  {
  }

  lemma HuffBasics(m: Members, table: Table, max: nat)
    requires HuffPhase(m.phase) && Sound(m, IndexLimit(table))
    ensures var st := View(m, table, max);
            (st.phase.NewNameReadNameHuff? || st.phase.ReadValueHuff?) && st.left == m.left && st.huff == m.huffState
    ensures m.huffAccept == Accepting(m.huffState) && (m.left == 0 ==> m.huffAccept)
  {
    hide Accepting;
  }

  /** What the outcome of nghttp2_hd_huff_decode on the next bytes of the string means. */
  lemma {:induction false} HuffPlan(m: Members, table: Table, max: nat, rest: Bytes, ok: bool, h: Node, accept: bool,
                                    out: Bytes)
    requires HuffPhase(m.phase) && Sound(m, IndexLimit(table)) && |out| <= 2 * Min(|rest|, m.left)
    requires var d := Walk(m.huffState, BytesToBits(rest[..Min(|rest|, m.left)]));
             if d.Fail? || (|rest| >= m.left && !Accepting(d.state)) then !ok
             else ok && d == Ok(h, out) && accept == Accepting(h)
    ensures ok ==> HuffTaken(m, table, max, rest,
                             AddMembers(m, out, Min(|rest|, m.left)).(huffState := h, huffAccept := accept))
    ensures !ok ==> m.left > 0 && Run(View(m, table, max), rest) == Rejected([])
  {
    hide Run, TextDone, Walk, BytesToBits, Accepting, AddText, View, Sound, RoomLeft, HuffTaken;
    HuffBasics(m, table, max);
    var used := Min(|rest|, m.left);
    if used > 0 { HuffChunk(View(m, table, max), rest[..used]); } else { WalkNothing(m.huffState); }
    if ok {
      HuffGoes(m, table, max, rest, h, accept, out);
    } else {
      RejectPrefix(View(m, table, max), rest, used);
    }
  }

  ghost predicate HuffTaken(m: Members, table: Table, max: nat, rest: Bytes, n: Members)
  {
    var used := Min(|rest|, m.left);
    && Sound(n, IndexLimit(table)) && RoomLeft(n) && n.room == m.room && n.phase == m.phase && n.left == m.left - used
    && if used == 0 then View(n, table, max) == View(m, table, max)
       else Run(View(m, table, max), rest[..used]) == TextDone(View(n, table, max))
  }

  lemma {:induction false} HuffGoes(m: Members, table: Table, max: nat, rest: Bytes, h: Node, accept: bool, out: Bytes)
    requires HuffPhase(m.phase) && Sound(m, IndexLimit(table)) && |out| <= 2 * Min(|rest|, m.left)
    requires accept == Accepting(h) && (|rest| >= m.left ==> accept)
    requires var used, st := Min(|rest|, m.left), View(m, table, max);
             if used == 0 then out == [] && h == m.huffState
             else Run(st, rest[..used]) == TextDone(AddText(st, out).(left := st.left - used, huff := h))
    ensures HuffTaken(m, table, max, rest,
                      AddMembers(m, out, Min(|rest|, m.left)).(huffState := h, huffAccept := accept))
  {
    hide Run, TextDone, Accepting, AddText, View, Sound, RoomLeft;
    HuffBasics(m, table, max);
    var used := Min(|rest|, m.left);
    HuffMembersView(m, out, h, accept, used, table, max);
    SoundRoom(AddMembers(m, out, used).(huffState := h, huffAccept := accept), IndexLimit(table));
  }

  lemma SoundRoom(m: Members, limit: nat)
    requires Sound(m, limit)
    ensures RoomLeft(m)
  {
  }

  lemma BusyIsSettled(st: Inflater)
    ensures st.left > 0 ==> TextDone(st) == Running(st, [])
  {
  }

  /** The assignments of nghttp2_hd_inflate_change_table_size. */
  lemma SizeMembersView(m: Members, settings: nat, table: Table, max: nat)
    requires Sound(m, IndexLimit(table)) && settings <= UINT32_MAX
    requires (m.phase.ExpectTableSize? || m.phase.InflateStart?)
    ensures var n := m.(settingsMax := settings);
            var n' := if max > settings then n.(phase := ExpectTableSize, minMax := settings) else n;
            && Sound(n', IndexLimit(EvictTo(table, settings)))
            && ChangeSize(View(m, table, max), settings) == Some(View(n', EvictTo(table, settings), settings))
  {
    hide Accepting, EvictTo;
  }

  /** The assignments that end READ_INDEX. */
  lemma IndexMembersView(m: Members, table: Table, max: nat)
    requires m.phase.ReadIndex? && m.left <= IndexLimit(table) && m.left <= UINT32_MAX
    requires Sound(m.(left := 0, shift := 0), IndexLimit(table))
    ensures m.left <= LengthMax(View(m, table, max)) && View(m, table, max).phase == ReadIndex
    ensures var st := View(m, table, max);
            if m.left == 0 then Sound(m.(shift := 0), IndexLimit(table)) && AfterLength(st, m.left) == Rejected([])
            else
              var n := m.(index := m.left - 1, phase := if m.op.OpIndexed? then Opcode else CheckValueLen);
              && Sound(n, IndexLimit(table))
              && AfterLength(st, m.left)
                 == Running(View(n, table, max),
                    if m.op.OpIndexed? then [Header(Lookup(table, m.left - 1), false)] else [])
  {
    hide Accepting, StaticField;
  }

  /** Adds decoded bytes to the buffer of the string being read. */
  function AddMembers(m: Members, out: Bytes, used: nat): Members
    requires used <= m.left
  {
    var n := m.(left := m.left - used);
    if NamePhase(m.phase) then n.(namebuf := m.namebuf + out) else n.(valuebuf := m.valuebuf + out)
  }

  lemma RawMembersView(m: Members, s: Bytes, table: Table, max: nat)
    requires TextPhase(m.phase) && !HuffPhase(m.phase) && |s| <= m.left
    requires Sound(m, IndexLimit(table))
    ensures var n := AddMembers(m, s, |s|);
            && Sound(n, IndexLimit(table))
            && View(n, table, max) == AddText(View(m, table, max), s).(left := m.left - |s|)
            && (s == [] ==> View(n, table, max) == View(m, table, max))
  {
    hide Accepting;
    if s == [] {
      assert m.namebuf + s == m.namebuf && m.valuebuf + s == m.valuebuf;
    }
  }

  lemma HuffMembersView(m: Members, out: Bytes, h: Node, accept: bool, used: nat, table: Table, max: nat)
    requires HuffPhase(m.phase) && used <= m.left && accept == Accepting(h) && (m.left == used ==> accept)
    requires |out| <= 2 * used
    requires Sound(m, IndexLimit(table)) && (used == 0 ==> out == [] && h == m.huffState)
    ensures var n := AddMembers(m, out, used).(huffState := h, huffAccept := accept);
            && Sound(n, IndexLimit(table))
            && View(n, table, max) == AddText(View(m, table, max), out).(left := m.left - used, huff := h)
            && (used == 0 ==> View(n, table, max) == View(m, table, max))
  {
    hide Accepting, Sound;
    HuffMembersSound(m, out, h, accept, used, IndexLimit(table));
    if used == 0 {
      assert m.namebuf + out == m.namebuf && m.valuebuf + out == m.valuebuf;
    }
  }

  lemma HuffMembersSound(m: Members, out: Bytes, h: Node, accept: bool, used: nat, limit: nat)
    requires HuffPhase(m.phase) && used <= m.left && accept == Accepting(h) && (m.left == used ==> accept)
    requires |out| <= 2 * used && Sound(m, limit)
    ensures Sound(AddMembers(m, out, used).(huffState := h, huffAccept := accept), limit)
  {
    hide Accepting;
  }

  lemma WalkNothing(h: Node)
    ensures BytesToBits([]) == [] && Walk(h, []) == Ok(h, [])
  {
  }

  /** An empty name is left behind without reading anything. */
  lemma EmptyNameStep(st: Inflater, b: byte)
    requires NamePhase(st.phase)
    ensures st.left == 0 ==> Step(st, b) == Step(Reset(st, CheckValueLen), b)
  {
    hide LengthByte, TextByte;
  }

  lemma RejectPrefix(st: Inflater, rest: Bytes, used: nat)
    requires used <= |rest| && Run(st, rest[..used]) == Rejected([])
    ensures Run(st, rest) == Rejected([])
  {
    hide Step;
    assert rest == rest[..used] + rest[used..];
    RunAppend(st, rest[..used], rest[used..]);
  }

  /** The assignments that start reading a string of known length. */
  function StringMembers(m: Members): Members
  {
    var n := m.(huffState := Root, huffAccept := true, room := if m.huffman then m.left * 2 + 1 else m.left + 1);
    if m.phase.ReadValueLen? then n.(phase := if m.huffman then ReadValueHuff else ReadValue, valuebuf := [])
    else n.(phase := if m.huffman then NewNameReadNameHuff else NewNameReadName, namebuf := [])
  }

  lemma StringMembersSound(m: Members, limit: nat)
    requires (m.phase.NewNameReadNameLen? || m.phase.ReadValueLen?) && m.left <= MAX_NV
    requires Sound(m.(left := 0, shift := 0), limit)
    ensures Sound(StringMembers(m), limit)
  {
    hide Accepting;
    RootAccepts();
  }

  lemma StringMembersView(m: Members, table: Table, max: nat)
    requires m.phase.NewNameReadNameLen? || m.phase.ReadValueLen?
    ensures var n := StringMembers(m);
            && TextPhase(n.phase) && NamePhase(n.phase) == m.phase.NewNameReadNameLen?
            && AfterStringLength(View(m, table, max), m.left)
               == if NamePhase(n.phase) then Running(View(n, table, max), []) else TextDone(View(n, table, max))
  {
    hide TextDone;
    var st, n := View(m, table, max), StringMembers(m);
    if m.phase.ReadValueLen? {
      assert View(n, table, max)
          == st.(left := m.left, shift := 0, huff := Root,
                 phase := if m.huffman then ReadValueHuff else ReadValue, value := []);
    }
  }

  /** The masks of the OPCODE case: `(b & 0xe0) == 0x20`, `(b & 0xf0) == 0x10`, and `b & 0x40` below 0x80. */
  predicate HasBits(b: byte, unit: nat)
    requires unit == 16 || unit == 32 || unit == 64
  {
    match unit
    case 16 => b / 16 == 1
    case 32 => b / 32 == 1
    case _ => b / 64 % 2 == 1
  }

  lemma FlagBits(b: byte)
    ensures HasBits(b, 32) == IsSizeUpdate(b) && HasBits(b, 16) == (0x10 <= b < 0x20)
    ensures b < 0x80 ==> HasBits(b, 64) == (b >= 0x40)
  {
  }

  /** The assignments of the OPCODE case. */
  function OpenMembers(m: Members, b: byte): Members
  {
    var n :=
      if HasBits(b, 32) then m.(op := OpIndexed, phase := ReadTableSize)
      else if b >= 0x80 then m.(op := OpIndexed, phase := ReadIndex)
      else
        var literal := m.(indexRequired := HasBits(b, 64), noIndex := HasBits(b, 16));
        if b == 0x40 || b == 0 || b == 0x10 then literal.(op := OpNewName, phase := NewNameCheckNameLen)
        else literal.(op := OpIndName, phase := ReadIndex);
    n.(left := 0, shift := 0)
  }

  lemma OpenMembersSound(m: Members, b: byte, limit: nat)
    requires BoundaryPhase(m.phase) && Sound(m, limit)
    ensures Sound(OpenMembers(m, b), limit)
  {
    hide HasBits;
  }

  lemma OpenMembersView(m: Members, b: byte, table: Table, max: nat)
    requires BoundaryPhase(m.phase) && Sound(m, IndexLimit(table))
    ensures Sound(OpenMembers(m, b), IndexLimit(table))
    ensures View(OpenMembers(m, b), table, max) == Opened(View(m, table, max), b)
  {
    hide HasBits, Sound;
    FlagBits(b);
    OpenMembersSound(m, b, IndexLimit(table));
    if IsSizeUpdate(b) {
    } else if b >= 0x80 {
    } else if b == 0x40 || b == 0 || b == 0x10 {
    } else {
    }
  }

  /** The state in which the first byte is read again, now as the start of an integer. */
  function Opened(st: Inflater, b: byte): Inflater
  {
    if IsSizeUpdate(b) then Reset(st, ReadTableSize).(op := OpIndexed)
    else if b >= 0x80 then Reset(st, ReadIndex).(op := OpIndexed)
    else
      var st' := st.(indexRequired := b >= 0x40, noIndex := 0x10 <= b < 0x20);
      if b == 0x40 || b == 0 || b == 0x10 then Reset(st', NewNameCheckNameLen).(op := OpNewName)
      else Reset(st', ReadIndex).(op := OpIndName)
  }

  lemma OpenStep(st: Inflater, b: byte)
    requires BoundaryPhase(st.phase)
    ensures if (st.phase.ExpectTableSize? && !IsSizeUpdate(b)) || (st.phase.Opcode? && IsSizeUpdate(b))
            then Step(st, b) == Rejected([])
            else if Opened(st, b).phase.NewNameCheckNameLen? then Step(st, b) == Running(Opened(st, b), [])
            else Step(st, b) == Step(Opened(st, b), b)
  {
    hide LengthByte;
  }

  lemma BeginStep(st: Inflater, b: byte)
    requires st.phase.NewNameCheckNameLen? || st.phase.CheckValueLen?
    ensures Step(st, b)
            == Step(Reset(st, if st.phase.CheckValueLen? then ReadValueLen else NewNameReadNameLen)
                    .(huffman := b >= 0x80), b)
  {
    hide LengthByte;
  }

  lemma {:induction false} IntRunRange(s: IntState, bs: Bytes, prefix: nat)
    requires ValidPrefix(prefix) && (s.Start? || (s.More? && 0 < s.n <= UINT32_MAX))
    ensures var t := IntRun(s, bs, prefix).0;
            && (t.More? ==> 0 < t.n <= UINT32_MAX) && (t.Done? ==> t.value <= UINT32_MAX)
    decreases |bs|
  {
    hide Shl, Shr;
    if bs != [] {
      MorePositive(s, bs[0], prefix);
      var t := IntStep(s, bs[0], prefix);
      if t.More? {
        IntRunRange(t, bs[1..], prefix);
      }
    }
  }

  lemma LengthFacts(left: nat, shift: nat, rest: Bytes, prefix: nat)
    requires ValidPrefix(prefix) && rest != [] && left <= UINT32_MAX
    ensures var (s, k) := IntRun(Resume(left, shift), rest, prefix);
            && !s.Start? && (s.More? ==> 0 < s.n <= UINT32_MAX) && (s.Done? ==> k > 0 && s.value <= UINT32_MAX)
  {
    hide NextByte, LowBits;
    IntRunRange(Resume(left, shift), rest, prefix);
    IntRunLeavesStart(Resume(left, shift), rest, prefix);
  }

  lemma {:induction false} IntRunLeavesStart(s: IntState, bs: Bytes, prefix: nat)
    requires ValidPrefix(prefix) && (bs != [] || !s.Start?)
    ensures !IntRun(s, bs, prefix).0.Start?
    decreases |bs|
  {
    hide Shl, Shr, LowBits;
    if !(s.Done? || s.Overflow? || bs == []) {
      IntRunLeavesStart(IntStep(s, bs[0], prefix), bs[1..], prefix);
    }
  }
}
