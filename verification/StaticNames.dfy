/**
 * The names of the static table are told apart by their length and their first and last letter, so that the token of a
 * name is the first entry with it.
 */
module StaticNames {
  import opened Bytes
  import opened StaticTable

  function Key(name: Bytes): nat
    requires name != []
  {
    var first: nat, last: nat := name[0], name[|name| - 1];
    65536 * |name| + 256 * first + last
  }

  /** The first token whose name has this key. */
  function ByKey(key: nat): int
  {
    match key
    case 0xa3a79 => 0 case 0x73a64 => 1 case 0x53a68 => 3 case 0x73a65 => 5 case 0x73a73 => 7 case 0xe6174 => 14
    case 0xf6167 => 15 case 0xf6165 => 16 case 0xd6173 => 17 case 0x66174 => 18 case 0x1b616e => 19
    case 0x36165 => 20 case 0x56177 => 21 case 0xd616e => 22 case 0xd636c => 23 case 0x13636e => 24
    case 0x106367 => 25 case 0x106365 => 26 case 0xe6368 => 27 case 0x10636e => 28 case 0xd6365 => 29
    case 0xc6365 => 30 case 0x66365 => 31 case 0x46465 => 32 case 0x46567 => 33 case 0x66574 => 34
    case 0x76573 => 35 case 0x4666d => 36 case 0x46874 => 37 case 0x86968 => 38 case 0x116965 => 39
    case 0xd6968 => 40 case 0x86965 => 41 case 0x136965 => 42 case 0xd6c64 => 43 case 0x46c6b => 44
    case 0x86c6e => 45 case 0xc6d73 => 46 case 0x127065 => 47 case 0x13706e => 48 case 0x57265 => 49
    case 0x77272 => 50 case 0x77268 => 51 case 0xb7272 => 52 case 0x67372 => 53 case 0xa7365 => 54
    case 0x197379 => 55 case 0x117467 => 56 case 0xa7574 => 57 case 0x47679 => 58 case 0x37661 => 59
    case 0x107765 => 60 case 0x27465 => 61 case 0xa636e => 62 case 0xa6b65 => 63 case 0x10706e => 64
    case 0x77565 => 65 case 0x93a6c => 66 case _ => -1
  }

  /** The first entry with the name of entry `i`. */
  function First(i: nat): nat
  {
    if i == 2 then 1 else if i == 4 then 3 else if i == 6 then 5 else if 8 <= i <= 13 then 7 else i
  }

  predicate KeyFits(i: nat)
    requires i < TOKEN_COUNT
  {
    TokenName(i) != [] && ByKey(Key(TokenName(i))) == First(i) && TokenName(First(i)) == TokenName(i)
  }

  lemma AsciiKey(s: string)
    requires s != "" && s[0] as int < 256 && s[|s| - 1] as int < 256
    ensures Ascii(s) != [] && Key(Ascii(s)) == 65536 * |s| + 256 * (s[0] as int) + s[|s| - 1] as int
  {
  }

  lemma Keys0(i: nat)
    requires 0 <= i < 14
    ensures KeyFits(i)
  {
    hide Ascii, Key;
    AsciiKey(":authority"); AsciiKey(":method"); AsciiKey(":path"); AsciiKey(":scheme"); AsciiKey(":status");
  }

  lemma Keys14(i: nat)
    requires 14 <= i < 24
    ensures KeyFits(i)
  {
    hide Ascii, Key;
    AsciiKey("accept-charset"); AsciiKey("accept-encoding"); AsciiKey("accept-language");
    AsciiKey("accept-ranges"); AsciiKey("accept"); AsciiKey("access-control-allow-origin"); AsciiKey("age");
    AsciiKey("allow"); AsciiKey("authorization"); AsciiKey("cache-control");
  }

  lemma Keys24(i: nat)
    requires 24 <= i < 34
    ensures KeyFits(i)
  {
    hide Ascii, Key;
    AsciiKey("content-disposition"); AsciiKey("content-encoding"); AsciiKey("content-language");
    AsciiKey("content-length"); AsciiKey("content-location"); AsciiKey("content-range");
    AsciiKey("content-type"); AsciiKey("cookie"); AsciiKey("date"); AsciiKey("etag");
  }

  lemma Keys34(i: nat)
    requires 34 <= i < 44
    ensures KeyFits(i)
  {
    hide Ascii, Key;
    AsciiKey("expect"); AsciiKey("expires"); AsciiKey("from"); AsciiKey("host"); AsciiKey("if-match");
    AsciiKey("if-modified-since"); AsciiKey("if-none-match"); AsciiKey("if-range");
    AsciiKey("if-unmodified-since"); AsciiKey("last-modified");
  }

  lemma Keys44(i: nat)
    requires 44 <= i < 54
    ensures KeyFits(i)
  {
    hide Ascii, Key;
    AsciiKey("link"); AsciiKey("location"); AsciiKey("max-forwards"); AsciiKey("proxy-authenticate");
    AsciiKey("proxy-authorization"); AsciiKey("range"); AsciiKey("referer"); AsciiKey("refresh");
    AsciiKey("retry-after"); AsciiKey("server");
  }

  lemma Keys54(i: nat)
    requires 54 <= i < 61
    ensures KeyFits(i)
  {
    hide Ascii, Key;
    AsciiKey("set-cookie"); AsciiKey("strict-transport-security"); AsciiKey("transfer-encoding");
    AsciiKey("user-agent"); AsciiKey("vary"); AsciiKey("via"); AsciiKey("www-authenticate");
  }

  lemma Keys61(i: nat)
    requires 61 <= i < 67
    ensures KeyFits(i)
  {
    hide Ascii, Key;
    AsciiKey("te"); AsciiKey("connection"); AsciiKey("keep-alive"); AsciiKey("proxy-connection");
    AsciiKey("upgrade"); AsciiKey(":protocol");
  }

  lemma KeysFit(i: nat)
    requires i < TOKEN_COUNT
    ensures KeyFits(i)
  {
    hide KeyFits;
    if i < 14 {
      Keys0(i);
    } else if i < 24 {
      Keys14(i);
    } else if i < 34 {
      Keys24(i);
    } else if i < 44 {
      Keys34(i);
    } else if i < 54 {
      Keys44(i);
    } else if i < 61 {
      Keys54(i);
    } else {
      Keys61(i);
    }
  }

  lemma {:induction false} LeastToken(name: Bytes, i: nat, j: nat)
    requires i <= j < TOKEN_COUNT && TokenName(j) == name
    ensures i <= TokenFrom(name, i) <= j
    decreases j - i
  {
    hide TokenName;
    if TokenName(i) != name { LeastToken(name, i + 1, j); }
  }

  /** lookup_token of the name of an entry gives the first entry with that name. */
  lemma TokenOfName(j: nat)
    requires j < TOKEN_COUNT
    ensures TokenOf(TokenName(j)) == First(j)
  {
    hide TokenName, ByKey, Key;
    var t := TokenOf(TokenName(j));
    KeysFit(j);
    LeastToken(TokenName(j), 0, First(j));
    KeysFit(t);
  }
}
