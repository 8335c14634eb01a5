/**
 * Which representation the deflater of lib/nghttp2_hd.c chooses for a field, stated on names and tables; and that
 * fields that should stay secret never get into a table, over whole connections.
 */
module DeflateChoice {
  import opened Bytes
  import opened IntCodec
  import opened Huffman
  import opened StaticTable
  import opened StaticNames
  import opened DynamicTable
  import opened Deflate
  import G = HpackGrammar
  import I = Inflate
  import HeaderSync

  // ---- indexing ------------------------------------------------------------------------------

  /** Fields that section 7.1.3 of RFC 7541 is about. */
  predicate Secret(f: Field)
  {
    f.name == Ascii("authorization") || (f.name == Ascii("cookie") && |f.value| < 20)
  }

  /** Fields that hardly ever come again. */
  predicate Volatile(name: Bytes)
  {
    || name == Ascii(":path") || name == Ascii("age") || name == Ascii("content-length") || name == Ascii("etag")
    || name == Ascii("if-modified-since") || name == Ascii("if-none-match") || name == Ascii("location")
    || name == Ascii("set-cookie")
  }

  lemma TokenIs(name: Bytes, t: nat)
    requires t < STATIC_TABLE_LENGTH && First(t) == t
    ensures TokenOf(name) == t <==> name == StaticField(t).name
  {
    hide StaticField;
    TokenOfName(t);
  }

  lemma SecretIff(f: Field)
    ensures Secret(f) <==> TokenOf(f.name) == TOKEN_AUTHORIZATION || (TokenOf(f.name) == TOKEN_COOKIE && |f.value| < 20)
  {
    hide Ascii, TokenOf;
    TokenIs(f.name, TOKEN_AUTHORIZATION);
    TokenIs(f.name, TOKEN_COOKIE);
  }

  lemma VolatileIff(name: Bytes)
    ensures Volatile(name) <==> FirstHalf(TokenOf(name)) || SecondHalf(TokenOf(name))
  {
    hide FirstHalf, SecondHalf, Ascii, TokenOf;
    FirstHalfIff(name);
    SecondHalfIff(name);
  }

  predicate FirstHalf(t: int)
  {
    t == TOKEN_PATH || t == TOKEN_AGE || t == TOKEN_CONTENT_LENGTH || t == TOKEN_ETAG
  }

  predicate SecondHalf(t: int)
  {
    t == TOKEN_IF_MODIFIED_SINCE || t == TOKEN_IF_NONE_MATCH || t == TOKEN_LOCATION || t == TOKEN_SET_COOKIE
  }

  lemma FirstHalfIff(name: Bytes)
    ensures FirstHalf(TokenOf(name)) <==>
            || name == Ascii(":path") || name == Ascii("age") || name == Ascii("content-length")
            || name == Ascii("etag")
  {
    hide Ascii, TokenOf;
    TokenIs(name, TOKEN_PATH);
    TokenIs(name, TOKEN_AGE);
    TokenIs(name, TOKEN_CONTENT_LENGTH);
    TokenIs(name, TOKEN_ETAG);
  }

  lemma NamesAt39()
    ensures StaticField(TOKEN_IF_MODIFIED_SINCE).name == Ascii("if-modified-since")
    ensures StaticField(TOKEN_IF_NONE_MATCH).name == Ascii("if-none-match")
  {
    hide Ascii;
  }

  lemma NamesAt45()
    ensures StaticField(TOKEN_LOCATION).name == Ascii("location")
    ensures StaticField(TOKEN_SET_COOKIE).name == Ascii("set-cookie")
  {
    hide Ascii;
  }

  lemma SecondHalfIff(name: Bytes)
    ensures SecondHalf(TokenOf(name)) <==>
            || name == Ascii("if-modified-since") || name == Ascii("if-none-match") || name == Ascii("location")
            || name == Ascii("set-cookie")
  {
    hide Ascii, TokenOf, StaticField;
    NamesAt39();
    NamesAt45();
    TokenIs(name, TOKEN_IF_MODIFIED_SINCE);
    TokenIs(name, TOKEN_IF_NONE_MATCH);
    TokenIs(name, TOKEN_LOCATION);
    TokenIs(name, TOKEN_SET_COOKIE);
  }

  /** The mode is decided by the name, the size and the wish of the application alone. */
  lemma ModeIff(nv: Nv, max: nat)
    ensures IndexingMode(nv, max)
            == if nv.noIndex || Secret(FieldOf(nv)) then NeverIndexing
               else if Volatile(nv.name) || 4 * Room(FieldOf(nv)) > 3 * max then WithoutIndexing
               else WithIndexing
  {
    hide TokenOf, Secret, Volatile;
    SecretIff(FieldOf(nv));
    VolatileIff(nv.name);
  }

  /** A field that may not be indexed is neither looked up as a whole nor put in the table. */
  lemma SecretNotInserted(t: Table, max: nat, nv: Nv)
    requires nv.noIndex || Secret(FieldOf(nv))
    ensures TableAfter(t, max, nv) == t
  {
    hide IndexingMode, Search, Secret;
    ModeIff(nv, max);
  }

  /** No secret is in a table. */
  predicate Clean(t: Table) { forall i :: 0 <= i < |t| ==> !Secret(t[i]) }

  lemma EvictClean(t: Table, bound: int)
    requires Clean(t)
    ensures Clean(EvictTo(t, bound))
  {
    hide Secret;
  }

  lemma StepClean(t: Table, max: nat, nv: Nv)
    requires Clean(t)
    ensures Clean(TableAfter(t, max, nv))
  {
    hide IndexingMode, Search, Secret, EvictTo;
    ModeIff(nv, max);
    EvictClean(t, max - Room(FieldOf(nv)));
  }

  lemma {:induction false} ListClean(t: Table, max: nat, nvs: seq<Nv>)
    requires Clean(t)
    ensures Clean(TableAfterList(t, max, nvs))
    decreases |nvs|
  {
    hide TableAfter, Clean;
    if nvs != [] {
      StepClean(t, max, nvs[0]);
      ListClean(TableAfter(t, max, nvs[0]), max, nvs[1..]);
    }
  }

  /** What can happen to a deflater. */
  datatype Event = Block(nvs: seq<Nv>) | Resize(settings: nat)

  function Next(d: Deflater, e: Event): Deflater
  {
    match e
    case Block(nvs) => AfterBlock(d, nvs)
    case Resize(settings) => ChangeSize(d, settings)
  }

  function Serve(d: Deflater, es: seq<Event>): Deflater
    decreases |es|
  {
    if es == [] then d else Serve(Next(d, es[0]), es[1..])
  }

  lemma NextClean(d: Deflater, e: Event)
    requires Clean(d.table)
    ensures Clean(Next(d, e).table)
  {
    hide Clean, EvictTo, TableAfterList;
    match e
    case Block(nvs) => ListClean(d.table, d.max, nvs);
    case Resize(settings) => EvictClean(d.table, Min(settings, d.cap));
  }

  /** Over every connection no secret ever gets into the table, the peer's table being the same. */
  lemma {:induction false} AlwaysClean(d: Deflater, es: seq<Event>)
    requires Clean(d.table)
    ensures Clean(Serve(d, es).table)
    decreases |es|
  {
    hide Clean, Next;
    if es != [] {
      NextClean(d, es[0]);
      AlwaysClean(Next(d, es[0]), es[1..]);
    }
  }

  // ---- the limit of the table ---------------------------------------------------------------------

  /** The table keeps within the deflater's own limit, and no size is held back once it has been announced. */
  predicate Fits(d: Deflater)
  {
    Size(d.table) <= d.max <= d.cap && (d.notify || d.min == UINT32_MAX)
  }

  lemma {:induction false} ListFits(t: Table, max: nat, nvs: seq<Nv>)
    requires Size(t) <= max
    ensures Size(TableAfterList(t, max, nvs)) <= max
    decreases |nvs|
  {
    hide TableAfter, Size;
    if nvs != [] {
      HeaderSync.TableStaysSmall(t, max, nvs[0]);
      ListFits(TableAfter(t, max, nvs[0]), max, nvs[1..]);
    }
  }

  /** Over every connection the table stays within the limit the application set, whatever the peer's SETTINGS say. */
  lemma {:induction false} ServedFits(d: Deflater, es: seq<Event>)
    requires Fits(d)
    ensures Fits(Serve(d, es)) && Serve(d, es).cap == d.cap
    decreases |es|
  {
    hide TableAfterList, EvictTo, Size;
    if es != [] {
      match es[0] {
        case Block(nvs) => ListFits(d.table, d.max, nvs);
        case Resize(settings) => EvictFits(d.table, Min(settings, d.cap));
      }
      ServedFits(Next(d, es[0]), es[1..]);
    }
  }

  /** A fresh deflater is like the peer's inflater unless it may use less, which it then announces. */
  lemma FreshFits(cap: nat, es: seq<Event>)
    ensures Fits(Serve(InitDeflater(cap), es))
    ensures InitDeflater(cap).table == [] && InitDeflater(cap).max == Min(cap, I.InitInflater.max)
    ensures InitDeflater(cap).notify <==> InitDeflater(cap).max < I.InitInflater.max
  {
    ServedFits(InitDeflater(cap), es);
  }

  /** A size that was asked for, as far as the application lets it count. */
  ghost predicate Asked(cap: nat, sizes: seq<nat>, n: nat) { exists i :: 0 <= i < |sizes| && n == Min(sizes[i], cap) }

  function Resizes(sizes: seq<nat>): seq<Event> { seq(|sizes|, i requires 0 <= i < |sizes| => Resize(sizes[i])) }

  /**
   * After a block, what the next one has to announce is the smallest of the sizes asked for since, and the last one;
   * nothing exactly if none was asked for.
   */
  lemma {:induction false} Announced(d: Deflater, nvs: seq<Nv>, sizes: seq<nat>)
    requires Fits(d) && forall i :: 0 <= i < |sizes| ==> sizes[i] <= UINT32_MAX
    ensures var e := Serve(AfterBlock(d, nvs), Resizes(sizes));
            && (e.notify <==> sizes != [])
            && e.max == (if sizes == [] then d.max else Min(sizes[|sizes| - 1], d.cap))
            && (sizes != [] ==> Asked(d.cap, sizes, e.min))
            && forall i :: 0 <= i < |sizes| ==> e.min <= Min(sizes[i], d.cap)
    decreases |sizes|
  {
    hide TableAfterList, EvictTo, Size, Serve;
    var d0 := AfterBlock(d, nvs);
    if sizes == [] {
      assert Resizes(sizes) == [];
      ServeNothing(d0);
    } else {
      var k := |sizes| - 1;
      Announced(d, nvs, sizes[..k]);
      assert Resizes(sizes) == Resizes(sizes[..k]) + [Resize(sizes[k])];
      ServeMore(d0, Resizes(sizes[..k]), Resize(sizes[k]));
      var was, e := Serve(d0, Resizes(sizes[..k])), Serve(d0, Resizes(sizes));
      ServeCap(d0, Resizes(sizes[..k]));
      assert e == ChangeSize(was, sizes[k]);
      if k == 0 { ServeNothing(d0); assert Resizes(sizes[..k]) == []; }
      if e.min == was.min && k > 0 {
        var i :| 0 <= i < k && was.min == Min(sizes[..k][i], d.cap);
        assert sizes[i] == sizes[..k][i];
      } else {
        assert e.min == Min(sizes[k], d.cap);
      }
      forall i | 0 <= i < k ensures e.min <= Min(sizes[i], d.cap) { assert sizes[i] == sizes[..k][i]; }
    }
  }

  lemma ServeNothing(d: Deflater)
    ensures Serve(d, []) == d
  {
  }

  lemma {:induction false} ServeMore(d: Deflater, es: seq<Event>, e: Event)
    ensures Serve(d, es + [e]) == Next(Serve(d, es), e)
    decreases |es|
  {
    hide Next;
    if es == [] {
      assert es + [e] == [e] && [e][1..] == [];
    } else {
      assert (es + [e])[1..] == es[1..] + [e];
      ServeMore(Next(d, es[0]), es[1..], e);
    }
  }

  lemma {:induction false} ServeCap(d: Deflater, es: seq<Event>)
    ensures Serve(d, es).cap == d.cap
    decreases |es|
  {
    hide TableAfterList, EvictTo;
    if es != [] { ServeCap(Next(d, es[0]), es[1..]); }
  }

  // ---- searching -------------------------------------------------------------------------------

  /** Some index stands for the field. */
  ghost predicate Known(t: Table, f: Field) { exists i :: 0 <= i < IndexLimit(t) && Lookup(t, i) == f }

  ghost predicate NameKnown(t: Table, name: Bytes) { exists i :: 0 <= i < IndexLimit(t) && Lookup(t, i).name == name }

  /** The loop over the static table finds the field if it is among the entries with its name. */
  lemma {:induction false} StaticFound(f: Field, token: nat, i: nat, j: nat)
    requires token < STATIC_TABLE_LENGTH && token <= i <= j < STATIC_TABLE_LENGTH && StaticField(j).value == f.value
    requires forall k :: i <= k <= j ==> StaticToken(k) == token
    ensures SearchStaticFrom(f, token, i).exact
    decreases j - i
  {
    hide StaticField, StaticToken;
    assert StaticToken(i) == token;
    if StaticField(i).value != f.value {
      assert i != j;
      StaticFound(f, token, i + 1, j);
    }
  }

  /** Entries with the same name stand together. */
  lemma StaticRun(j: nat, k: nat)
    requires j < STATIC_TABLE_LENGTH && First(j) <= k <= j
    ensures First(k) == First(j) && StaticToken(k) == First(j)
  {
    hide StaticField, TokenName;
    TokenNameStatic(k);
    TokenOfName(k);
  }

  lemma StaticKnown(f: Field, j: nat)
    requires j < STATIC_TABLE_LENGTH && StaticField(j) == f
    ensures TokenOf(f.name) == First(j) && First(j) <= j && SearchStaticFrom(f, First(j), First(j)).exact
  {
    hide StaticField, TokenName, TokenOf, SearchStaticFrom;
    TokenNameStatic(j);
    TokenOfName(j);
    forall k | First(j) <= k <= j ensures StaticToken(k) == First(j) { StaticRun(j, k); }
    StaticFound(f, First(j), First(j), j);
  }

  lemma StaticNameKnown(name: Bytes, j: nat)
    requires j < STATIC_TABLE_LENGTH && StaticField(j).name == name
    ensures 0 <= TokenOf(name) < STATIC_TABLE_LENGTH
  {
    hide StaticField, TokenName, TokenOf;
    TokenNameStatic(j);
    TokenOfName(j);
  }

  /** The search misses nothing: neither a field, unless only the name is asked for, nor a name. */
  lemma SearchComplete(t: Table, f: Field, nameOnly: bool)
    ensures var r := Search(t, f, nameOnly);
            && (r.exact <==> !nameOnly && Known(t, f)) && (r.index != -1 <==> NameKnown(t, f.name))
            && (r.exact ==> Lookup(t, r.index) == f) && (r.index != -1 ==> Lookup(t, r.index).name == f.name)
  {
    hide StaticField, TokenName, TokenOf, SearchStaticFrom, FindField, FindName;
    SearchSound(t, f, nameOnly);
    if i :| 0 <= i < IndexLimit(t) && Lookup(t, i) == f && !nameOnly { FieldFound(t, f, nameOnly, i); }
    if i :| 0 <= i < IndexLimit(t) && Lookup(t, i).name == f.name { NameFound(t, f, nameOnly, i); }
  }

  lemma FieldFound(t: Table, f: Field, nameOnly: bool, i: nat)
    requires i < IndexLimit(t) && Lookup(t, i) == f && !nameOnly
    ensures Search(t, f, nameOnly).exact
  {
    hide StaticField, TokenName, TokenOf, SearchStaticFrom;
    if i < STATIC_TABLE_LENGTH {
      StaticKnown(f, i);
    } else {
      assert t[i - STATIC_TABLE_LENGTH] == f;
    }
  }

  lemma NameFound(t: Table, f: Field, nameOnly: bool, i: nat)
    requires i < IndexLimit(t) && Lookup(t, i).name == f.name
    ensures Search(t, f, nameOnly).index != -1
  {
    hide StaticField, TokenName, TokenOf, SearchStaticFrom;
    if i < STATIC_TABLE_LENGTH {
      StaticNameKnown(f.name, i);
    } else {
      assert t[i - STATIC_TABLE_LENGTH].name == f.name;
    }
  }

  // ---- what is written ---------------------------------------------------------------------------

  function IndexingOf(mode: Mode): G.Indexing
  {
    match mode
    case WithIndexing => G.Incremental
    case WithoutIndexing => G.Without
    case NeverIndexing => G.Never
  }

  function RepOf(t: Table, max: nat, nv: Nv): G.Rep
  {
    var mode := IndexingMode(nv, max);
    var r := Search(t, FieldOf(nv), mode.NeverIndexing?);
    if r.exact then G.Indexed(r.index + 1)
    else G.Literal(IndexingOf(mode), if r.index == -1 then G.NewName(nv.name) else G.NameAt(r.index + 1), nv.value)
  }

  /**
   * A field that either table holds is sent as its index, unless it is to stay secret; otherwise its name is sent as an
   * index exactly if either table has it, and the field is entered in the table exactly if it is neither secret nor
   * volatile nor too large.
   */
  lemma ChoiceIff(t: Table, max: nat, nv: Nv)
    ensures var rep, f := RepOf(t, max, nv), FieldOf(nv);
            var secret := nv.noIndex || Secret(f);
            && (rep.Indexed? <==> !secret && Known(t, f)) && !rep.SizeUpdate?
            && (rep.Indexed? ==> 1 <= rep.index <= IndexLimit(t) && Lookup(t, rep.index - 1) == f)
            && (rep.Literal? ==>
                  && rep.value == nv.value && (rep.name.NameAt? <==> NameKnown(t, nv.name))
                  && (rep.name.NameAt? ==> 1 <= rep.name.index <= IndexLimit(t)
                                           && Lookup(t, rep.name.index - 1).name == nv.name)
                  && (rep.name.NewName? ==> rep.name.text == nv.name)
                  && (rep.indexing.Never? <==> secret)
                  && (rep.indexing.Incremental? <==> !secret && !Volatile(nv.name) && 4 * Room(f) <= 3 * max))
            && TableAfter(t, max, nv) == if rep.Literal? && rep.indexing.Incremental? then Insert(t, f, max) else t
  {
    hide IndexingMode, Search, Secret, Volatile, Known, NameKnown, Insert, Lookup;
    ModeIff(nv, max);
    SearchComplete(t, FieldOf(nv), IndexingMode(nv, max).NeverIndexing?);
  }

  lemma ReadIntOf(first: byte, n: nat, prefix: nat, rest: Bytes)
    requires ValidPrefix(prefix) && n <= UINT32_MAX
    ensures G.ReadInt(EncodeInt(first, n, prefix) + rest, prefix) == Some(G.Item(n, |EncodeInt(first, n, prefix)|))
  {
    hide EncodeInt, IntRun;
    IntRoundTrip(first, n, prefix, rest);
  }

  /** The shorter of the two forms of a string is sent, and the first bit tells which. */
  lemma ShorterForm(s: Bytes)
    ensures |WireBody(s)| == Min(|s|, |HuffEncode(s)|)
    ensures EmitString(s)[0] >= 0x80 <==> |HuffEncode(s)| < |s|
    ensures WireBody(s) == if |HuffEncode(s)| < |s| then HuffEncode(s) else s
  {
    hide HuffEncode, EncodeInt;
    HeaderSync.FirstByteRange(if UsesHuffman(s) then 0x80 else 0, |WireBody(s)|, 7);
  }

  lemma ReadStringOf(s: Bytes, rest: Bytes)
    requires |s| <= I.MAX_NV
    ensures G.ReadString(EmitString(s) + rest) == Some(G.Item(s, |EmitString(s)|))
  {
    hide HuffEncode, EncodeInt, Walk, Accepting, G.ReadInt, G.ReadString, WireBody;
    var bs, body := EmitString(s) + rest, WireBody(s);
    var first := if UsesHuffman(s) then 0x80 else 0;
    var enc := EncodeInt(first, |body|, 7);
    ShorterForm(s);
    ReadIntOf(first, |body|, 7, body + rest);
    assert bs == enc + (body + rest) && bs[|enc|..] == body + rest && (body + rest)[..|body|] == body;
    G.ReadLong(bs, G.Item(|body|, |enc|));
    HuffRoundTrip(s);
  }

  /** What the deflater writes for a field is that representation. */
  lemma FieldWritten(t: Table, max: nat, nv: Nv, rest: Bytes)
    requires |nv.name| <= I.MAX_NV && |nv.value| <= I.MAX_NV && IndexLimit(t) <= UINT32_MAX
    ensures var bs := DeflateNv(t, max, nv);
            bs != [] && G.ReadRep(bs + rest) == Some(G.Item(RepOf(t, max, nv), |bs|))
  {
    hide IndexingMode, Search, EncodeInt, EmitString, G.ReadInt, G.ReadString;
    var mode := IndexingMode(nv, max);
    var r := Search(t, FieldOf(nv), mode.NeverIndexing?);
    if r.exact {
      IndexedWritten(r.index, rest);
    } else if r.index == -1 {
      NewNameWritten(nv, mode, rest);
    } else {
      IndexedNameWritten(r.index, nv.value, mode, rest);
    }
  }

  lemma IndexedWritten(idx: nat, rest: Bytes)
    requires idx < UINT32_MAX
    ensures G.ReadRep(EmitIndexed(idx) + rest) == Some(G.Item(G.Indexed(idx + 1), |EmitIndexed(idx)|))
  {
    hide EncodeInt, G.ReadInt;
    HeaderSync.FirstByteRange(0x80, idx + 1, 7);
    ReadIntOf(0x80, idx + 1, 7, rest);
  }

  lemma NewNameWritten(nv: Nv, mode: Mode, rest: Bytes)
    requires |nv.name| <= I.MAX_NV && |nv.value| <= I.MAX_NV
    ensures var bs := EmitNewName(nv, mode);
            G.ReadRep(bs + rest)
            == Some(G.Item(G.Literal(IndexingOf(mode), G.NewName(nv.name), nv.value), |bs|))
  {
    hide EmitString, G.ReadInt, G.ReadString;
    var n, v := EmitString(nv.name), EmitString(nv.value);
    var bs := EmitNewName(nv, mode) + rest;
    assert bs[1..] == n + (v + rest) && bs[1 + |n|..] == v + rest;
    ReadStringOf(nv.name, v + rest);
    ReadStringOf(nv.value, rest);
  }

  lemma IndexedNameWritten(idx: nat, value: Bytes, mode: Mode, rest: Bytes)
    requires idx < UINT32_MAX && |value| <= I.MAX_NV
    ensures var bs := EmitIndexedName(idx, value, mode);
            G.ReadRep(bs + rest) == Some(G.Item(G.Literal(IndexingOf(mode), G.NameAt(idx + 1), value), |bs|))
  {
    hide EmitString, EncodeInt, G.ReadInt, G.ReadString;
    var first, prefix, v := FirstByteOf(mode), NamePrefix(mode), EmitString(value);
    var enc := EncodeInt(first, idx + 1, prefix);
    var bs := EmitIndexedName(idx, value, mode) + rest;
    assert bs == enc + (v + rest) && bs[|enc|..] == v + rest;
    HeaderSync.FirstByteRange(first, idx + 1, prefix);
    assert LowBits(bs[0], prefix) != 0;
    ReadIntOf(first, idx + 1, prefix, v + rest);
    ReadStringOf(value, rest);
  }

  /** A block opens with size updates exactly if the size has been changed: the smallest one, and the last if larger. */
  lemma UpdatesWritten(d: Deflater, rest: Bytes)
    requires d.min <= UINT32_MAX && d.max <= UINT32_MAX
    ensures SizeUpdates(d) == [] <==> !d.notify
    ensures d.notify ==>
              var bs := SizeUpdates(d) + rest;
              var least, last := EmitTableSize(d.min), EmitTableSize(d.max);
              if d.max > d.min then
                && G.ReadRep(bs) == Some(G.Item(G.SizeUpdate(d.min), |least|))
                && G.ReadRep(bs[|least|..]) == Some(G.Item(G.SizeUpdate(d.max), |last|))
              else G.ReadRep(bs) == Some(G.Item(G.SizeUpdate(d.max), |last|))
  {
    hide EmitTableSize, G.ReadRep;
    if d.notify {
      var least, last := EmitTableSize(d.min), EmitTableSize(d.max);
      UpdateWritten(d.max, rest);
      if d.max > d.min {
        UpdateWritten(d.min, last + rest);
        assert SizeUpdates(d) + rest == least + (last + rest);
        assert (least + (last + rest))[|least|..] == last + rest;
      } else {
        assert SizeUpdates(d) == last;
      }
    }
  }

  lemma UpdateWritten(n: nat, rest: Bytes)
    requires n <= UINT32_MAX
    ensures EmitTableSize(n) != []
    ensures G.ReadRep(EmitTableSize(n) + rest) == Some(G.Item(G.SizeUpdate(n), |EmitTableSize(n)|))
  {
    hide EncodeInt, G.ReadInt;
    HeaderSync.FirstByteRange(0x20, n, 5);
    ReadIntOf(0x20, n, 5, rest);
  }
}
