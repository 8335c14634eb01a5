/** Runs of the byte machine over the pieces the source reads at once: lengths and stretches of strings. */
module InflateRuns {
  import opened Bytes
  import opened IntCodec
  import opened Huffman
  import opened StaticTable
  import opened DynamicTable
  import opened Inflate

  lemma PrependNothing(o: Outcome)
    ensures Prepend([], o) == o
  {
    assert [] + o.out == o.out;
  }

  lemma RunUnfold(st: Inflater, bs: Bytes)
    requires bs != []
    ensures Run(st, bs) == Continue(Step(st, bs[0]), bs[1..])
  {
    hide Step;
  }

  lemma RunNothing(st: Inflater)
    ensures Run(st, []) == Running(st, [])
  {
  }

  /** An outcome that emitted nothing and kept going is just the state it reached. */
  lemma ContinueQuietly(st: Inflater, bs: Bytes)
    ensures Continue(Running(st, []), bs) == Run(st, bs)
  {
    hide Run;
    PrependNothing(Run(st, bs));
  }

  lemma SameStep(a: Inflater, b: Inflater, bs: Bytes)
    requires bs != [] && Step(a, bs[0]) == Step(b, bs[0])
    ensures Run(a, bs) == Run(b, bs)
  {
    hide Step;
  }

  // ---- lengths ------------------------------------------------------------

  lemma MorePositive(s: IntState, b: byte, prefix: nat)
    requires ValidPrefix(prefix) && (s.Start? || (s.More? && 0 < s.n <= UINT32_MAX))
    ensures var t := IntStep(s, b, prefix); t.More? ==> 0 < t.n <= UINT32_MAX && (s.More? ==> s.n <= t.n)
    ensures !IntStep(s, b, prefix).Start?
  {
    hide Shl, Shr;
  }

  /** Integers only grow as digits arrive, so exceeding the limit early is exceeding it in the end. */
  lemma {:induction false} ValueGrows(s: IntState, bs: Bytes, prefix: nat)
    requires ValidPrefix(prefix) && s.More? && 0 < s.n <= UINT32_MAX
    ensures var t := IntRun(s, bs, prefix).0;
            (t.Done? ==> t.value >= s.n) && (t.More? ==> t.n >= s.n)
    decreases |bs|
  {
    hide Shl, Shr;
    if bs != [] {
      MorePositive(s, bs[0], prefix);
      var t := IntStep(s, bs[0], prefix);
      if t.More? {
        ValueGrows(t, bs[1..], prefix);
      }
    }
  }

  lemma SameBounds(st: Inflater, n: nat, shift: nat)
    ensures var st' := st.(left := n, shift := shift);
            LengthMax(st') == LengthMax(st) && LengthPrefix(st') == LengthPrefix(st)
  {
  }

  /** Reading a length byte by byte agrees with decoding it in one go. */
  lemma {:induction false} LengthOutcome(st: Inflater, bs: Bytes)
    requires LengthPhase(st.phase) && st.left <= UINT32_MAX && bs != []
    ensures var (s, k) := IntRun(Resume(st.left, st.shift), bs, LengthPrefix(st));
            if s.Done? && s.value <= LengthMax(st) then Run(st, bs[..k]) == AfterLength(st, s.value)
            else if s.More? && s.n <= LengthMax(st) then Run(st, bs) == Running(st.(left := s.n, shift := s.shift), [])
            else Run(st, bs) == Rejected([])
    decreases |bs|
  {
    hide IntStep, AfterLength, LengthMax, LengthPrefix, Step;
    var s0 := Resume(st.left, st.shift);
    var prefix := LengthPrefix(st);
    var t := IntStep(s0, bs[0], prefix);
    MorePositive(s0, bs[0], prefix);
    StepIsLengthByte(st, bs[0]);
    if t.More? {
      var st' := st.(left := t.n, shift := t.shift);
      assert Resume(t.n, t.shift) == t;
      SameBounds(st, t.n, t.shift);
      ValueGrows(t, bs[1..], prefix);
      if t.n <= LengthMax(st) && |bs| > 1 {
        LengthOutcome(st', bs[1..]);
        var (s, k) := IntRun(s0, bs, prefix);
        AfterLengthIgnoresProgress(st, t.n, t.shift);
        PrependNothing(Run(st', bs[1..]));
        if s.Done? {
          assert bs[..k][1..] == bs[1..][..k - 1];
          PrependNothing(Run(st', bs[..k][1..]));
        }
      } else if |bs| == 1 {
        assert bs[1..] == [];
      }
    } else {
      assert IntRun(s0, bs, prefix) == (t, 1);
      assert bs[..1][1..] == [];
      if t.Done? && t.value <= LengthMax(st) {
        SettleOne(st, bs[0], AfterLength(st, t.value));
        assert bs[..1] == [bs[0]];
      }
    }
  }

  lemma StepIsLengthByte(st: Inflater, b: byte)
    requires LengthPhase(st.phase)
    ensures Step(st, b) == LengthByte(st, b)
  {
    hide LengthByte;
  }

  lemma SettleOne(st: Inflater, b: byte, o: Outcome)
    requires Step(st, b) == o
    ensures Run(st, [b]) == o
  {
    hide Step;
    assert [b][1..] == [];
    if o.Running? {
      assert o.out + [] == o.out;
    }
  }

  lemma AfterLengthIgnoresProgress(st: Inflater, n: nat, shift: nat)
    requires LengthPhase(st.phase)
    ensures forall v: nat :: v <= LengthMax(st) ==> AfterLength(st.(left := n, shift := shift), v) == AfterLength(st, v)
  {
    hide Commit, StaticField;
  }

  // ---- strings ------------------------------------------------------------

  lemma StepIsText(st: Inflater, b: byte)
    requires TextPhase(st.phase)
    requires st.left > 0
    ensures Step(st, b) == TextByte(st, b)
  {
    hide TextByte;
  }

  lemma TextGoesOn(st: Inflater)
    requires st.left > 0
    ensures TextDone(st) == Running(st, [])
  {
  }

  lemma AddKeeps(st: Inflater, a: Bytes)
    ensures AddText(st, a) == st.(name := AddText(st, a).name, value := AddText(st, a).value)
  {
  }

  lemma AddTwice(st: Inflater, a: Bytes, b: Bytes, left: nat, huff: Node)
    ensures var n := AddText(AddText(st, a).(left := left, huff := huff), b);
            n == AddText(st, a + b).(left := left, huff := huff)
  {
    assert st.name + a + b == st.name + (a + b) && st.value + a + b == st.value + (a + b);
  }

  /** Part or all of a raw string. */
  lemma {:induction false} RawChunk(st: Inflater, s: Bytes)
    requires st.phase.NewNameReadName? || st.phase.ReadValue?
    requires 0 < |s| <= st.left
    ensures Run(st, s) == TextDone(AddText(st, s).(left := st.left - |s|))
    decreases |s|
  {
    hide Step, Run, AddText, TextDone;
    var st' := AddText(st, [s[0]]).(left := st.left - 1);
    StepIsText(st, s[0]);
    if |s| == 1 {
      assert [s[0]] == s;
      SettleOne(st, s[0], TextDone(st'));
    } else {
      RunUnfold(st, s);
      TextGoesOn(st');
      AddKeeps(st, [s[0]]);
      RawChunk(st', s[1..]);
      PrependNothing(Run(st', s[1..]));
      assert [s[0]] + s[1..] == s;
      AddKeeps(st, s);
      AddTwice(st, [s[0]], s[1..], st.left - 1, st.huff);
    }
  }

  /** Part or all of a Huffman-coded string. */
  lemma {:induction false} HuffChunk(st: Inflater, enc: Bytes)
    requires st.phase.NewNameReadNameHuff? || st.phase.ReadValueHuff?
    requires 0 < |enc| <= st.left
    ensures var d := Walk(st.huff, BytesToBits(enc));
            if d.Fail? || (|enc| == st.left && !Accepting(d.state)) then Run(st, enc) == Rejected([])
            else Run(st, enc) == TextDone(AddText(st, d.out).(left := st.left - |enc|, huff := d.state))
    decreases |enc|
  {
    hide Step, Run, Walk, AddText, TextDone, Accepting;
    RunUnfold(st, enc);
    StepIsText(st, enc[0]);
    WalkAppend(st.huff, BitsOf(enc[0], 8), BytesToBits(enc[1..]));
    var d := DecodeByte(st.huff, enc[0]);
    if d.Ok? {
      var st' := AddText(st, d.out).(huff := d.state, left := st.left - 1);
      AddKeeps(st, d.out);
      if |enc| == 1 {
        assert BytesToBits(enc) == BitsOf(enc[0], 8);
        assert enc == [enc[0]];
        SettleOne(st, enc[0], Step(st, enc[0]));
      } else {
        TextGoesOn(st');
        HuffChunk(st', enc[1..]);
        PrependNothing(Run(st', enc[1..]));
        var e := Walk(d.state, BytesToBits(enc[1..]));
        if e.Ok? { AddTwice(st, d.out, e.out, st.left - 1, d.state); }
      }
    }
  }
}
