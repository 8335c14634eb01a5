/** What the deflater of lib/nghttp2_hd.c emits, as functions of the table and the header list. */
module Deflate {
  import opened Bytes
  import opened IntCodec
  import opened Huffman
  import opened StaticTable
  import opened DynamicTable

  /** A header field to encode; `noIndex` is NGHTTP2_NV_FLAG_NO_INDEX. */
  datatype Nv = Nv(name: Bytes, value: Bytes, noIndex: bool)

  datatype Mode = WithIndexing | WithoutIndexing | NeverIndexing

  function FieldOf(nv: Nv): Field { Field(nv.name, nv.value) }

  // ---- choice of representation -------------------------------------------

  function DecideIndexing(nv: Nv, max: nat): Mode
  {
    var token := TokenOf(nv.name);
    if token == TOKEN_PATH || token == TOKEN_AGE || token == TOKEN_CONTENT_LENGTH || token == TOKEN_ETAG
      || token == TOKEN_IF_MODIFIED_SINCE || token == TOKEN_IF_NONE_MATCH || token == TOKEN_LOCATION
      || token == TOKEN_SET_COOKIE || Room(FieldOf(nv)) > max * 3 / 4
    then WithoutIndexing
    else WithIndexing
  }

  function IndexingMode(nv: Nv, max: nat): (m: Mode)
    ensures m.WithIndexing? ==> Room(FieldOf(nv)) <= max
    ensures nv.noIndex ==> m.NeverIndexing?
  {
    var token := TokenOf(nv.name);
    if token == TOKEN_AUTHORIZATION || (token == TOKEN_COOKIE && |nv.value| < 20) || nv.noIndex
    then NeverIndexing
    else DecideIndexing(nv, max)
  }

  datatype Found = Found(index: int, exact: bool)

  /** Lowest position at or after `i` holding the whole field, or -1. */
  function FindField(t: Table, f: Field, i: nat): (k: int)
    requires i <= |t|
    ensures k == -1 || (i <= k < |t| && t[k] == f)
    ensures forall j :: i <= j < (if k == -1 then |t| else k) ==> t[j] != f
    decreases |t| - i
  {
    if i == |t| then -1 else if t[i] == f then i else FindField(t, f, i + 1)
  }

  /** Lowest position at or after `i` holding the name, or -1. */
  function FindName(t: Table, name: Bytes, i: nat): (k: int)
    requires i <= |t|
    ensures k == -1 || (i <= k < |t| && t[k].name == name)
    ensures forall j :: i <= j < (if k == -1 then |t| else k) ==> t[j].name != name
    decreases |t| - i
  {
    if i == |t| then -1 else if t[i].name == name then i else FindName(t, name, i + 1)
  }

  /** The lowest exact match in the dynamic table, else the lowest name match. */
  function SearchDynamic(t: Table, f: Field, nameOnly: bool): (r: Found)
    ensures (r.index == -1 && !r.exact) || 0 <= r.index < |t|
  {
    var exact := FindField(t, f, 0);
    if exact != -1 && !nameOnly then Found(exact, true) else Found(FindName(t, f.name, 0), false)
  }

  /** The loop of search_static_table from position `i`. */
  function SearchStaticFrom(f: Field, token: nat, i: nat): (r: Found)
    requires token < STATIC_TABLE_LENGTH && token <= i
    ensures 0 <= r.index < STATIC_TABLE_LENGTH
    decreases STATIC_TABLE_LENGTH - i
  {
    if i < STATIC_TABLE_LENGTH && StaticToken(i) == token then
      if StaticField(i).value == f.value then Found(i, true) else SearchStaticFrom(f, token, i + 1)
    else Found(token, false)
  }

  function Search(t: Table, f: Field, nameOnly: bool): (r: Found)
    ensures (r.index == -1 && !r.exact) || 0 <= r.index < IndexLimit(t)
  {
    var d := SearchDynamic(t, f, nameOnly);
    var token := TokenOf(f.name);
    if !d.exact && 0 <= token < STATIC_TABLE_LENGTH then
      if nameOnly then Found(token, false) else SearchStaticFrom(f, token, token)
    else if d.index == -1 then Found(-1, false)
    else Found(d.index + STATIC_TABLE_LENGTH, d.exact)
  }

  lemma {:induction false} StaticSearchSound(f: Field, token: nat, i: nat)
    requires token < STATIC_TABLE_LENGTH && token <= i && TokenOf(f.name) == token
    ensures var r := SearchStaticFrom(f, token, i);
            StaticField(r.index).name == f.name && (r.exact ==> StaticField(r.index) == f)
    decreases STATIC_TABLE_LENGTH - i
  {
    hide StaticField, TokenName;
    assert TokenName(token) == StaticField(token).name by { TokenNameStatic(token); }
    if i < STATIC_TABLE_LENGTH && StaticToken(i) == token {
      if StaticField(i).value != f.value {
        StaticSearchSound(f, token, i + 1);
      }
    }
  }

  lemma TokenNameStatic(i: nat)
    requires i < STATIC_TABLE_LENGTH
    ensures TokenName(i) == StaticField(i).name
  {
    hide StaticField;
  }

  /** A reported index names the right field: the whole field when exact, otherwise its name. */
  lemma SearchSound(t: Table, f: Field, nameOnly: bool)
    ensures var r := Search(t, f, nameOnly);
            r.index != -1 ==> Lookup(t, r.index).name == f.name && (r.exact ==> Lookup(t, r.index) == f)
    ensures nameOnly ==> !Search(t, f, nameOnly).exact
  {
    hide StaticField, TokenName, SearchStaticFrom;
    var d := SearchDynamic(t, f, nameOnly);
    var token := TokenOf(f.name);
    if !d.exact && 0 <= token < STATIC_TABLE_LENGTH {
      TokenNameStatic(token);
      StaticSearchSound(f, token, token);
    }
  }

  // ---- emission -----------------------------------------------------------

  function EmitTableSize(n: nat): Bytes { EncodeInt(0x20, n, 5) }

  function EmitIndexed(idx: nat): Bytes { EncodeInt(0x80, idx + 1, 7) }

  /** Huffman coding is used only when it is strictly shorter. */
  predicate UsesHuffman(s: Bytes) { |HuffEncode(s)| < |s| }

  function WireBody(s: Bytes): (bs: Bytes)
    ensures |bs| <= |s|
  {
    if UsesHuffman(s) then HuffEncode(s) else s
  }

  function EmitString(s: Bytes): (bs: Bytes)
    ensures |bs| > 0
  {
    EncodeInt(if UsesHuffman(s) then 0x80 else 0, |WireBody(s)|, 7) + WireBody(s)
  }

  function FirstByteOf(mode: Mode): byte
  {
    match mode
    case WithIndexing => 0x40
    case WithoutIndexing => 0
    case NeverIndexing => 0x10
  }

  function NamePrefix(mode: Mode): nat { if mode.WithIndexing? then 6 else 4 }

  function EmitIndexedName(idx: nat, value: Bytes, mode: Mode): Bytes
  {
    EncodeInt(FirstByteOf(mode), idx + 1, NamePrefix(mode)) + EmitString(value)
  }

  function EmitNewName(nv: Nv, mode: Mode): Bytes
  {
    [FirstByteOf(mode)] + EmitString(nv.name) + EmitString(nv.value)
  }

  /** deflate_nv: the bytes for one field. */
  function DeflateNv(t: Table, max: nat, nv: Nv): Bytes
  {
    var mode := IndexingMode(nv, max);
    var r := Search(t, FieldOf(nv), mode.NeverIndexing?);
    if r.exact then EmitIndexed(r.index)
    else if r.index == -1 then EmitNewName(nv, mode)
    else EmitIndexedName(r.index, nv.value, mode)
  }

  /** deflate_nv: the table afterwards. */
  function TableAfter(t: Table, max: nat, nv: Nv): Table
  {
    var mode := IndexingMode(nv, max);
    var r := Search(t, FieldOf(nv), mode.NeverIndexing?);
    if r.exact || !mode.WithIndexing? then t else Insert(t, FieldOf(nv), max)
  }

  function DeflateList(t: Table, max: nat, nvs: seq<Nv>): Bytes
    decreases |nvs|
  {
    if nvs == [] then [] else DeflateNv(t, max, nvs[0]) + DeflateList(TableAfter(t, max, nvs[0]), max, nvs[1..])
  }

  function TableAfterList(t: Table, max: nat, nvs: seq<Nv>): Table
    decreases |nvs|
  {
    if nvs == [] then t else TableAfterList(TableAfter(t, max, nvs[0]), max, nvs[1..])
  }

  // ---- the deflater's state ----------------------------------------------

  /**
   * `cap` is deflate_hd_table_bufsize_max, `min` is min_hd_table_bufsize_max and `notify`
   * is notify_table_size_change.
   */
  datatype Deflater = Deflater(table: Table, max: nat, cap: nat, min: nat, notify: bool)

  const DEFAULT_TABLE_SIZE := 4096

  /** nghttp2_hd_deflate_init2. */
  function InitDeflater(cap: nat): Deflater
  {
    Deflater([], Min(cap, DEFAULT_TABLE_SIZE), cap, UINT32_MAX, cap < DEFAULT_TABLE_SIZE)
  }

  /** nghttp2_hd_deflate_change_table_size. */
  function ChangeSize(d: Deflater, settings: nat): Deflater
  {
    var next := Min(settings, d.cap);
    Deflater(EvictTo(d.table, next), next, d.cap, Min(d.min, next), true)
  }

  /** The size updates that open a block. */
  function SizeUpdates(d: Deflater): Bytes
  {
    if !d.notify then []
    else (if d.max > d.min then EmitTableSize(d.min) else []) + EmitTableSize(d.max)
  }

  /** nghttp2_hd_deflate_hd_bufs: the header block. */
  function DeflateBlock(d: Deflater, nvs: seq<Nv>): Bytes
  {
    SizeUpdates(d) + DeflateList(d.table, d.max, nvs)
  }

  function AfterBlock(d: Deflater, nvs: seq<Nv>): Deflater
  {
    Deflater(TableAfterList(d.table, d.max, nvs), d.max, d.cap, if d.notify then UINT32_MAX else d.min, false)
  }
}
