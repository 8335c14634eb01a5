/** The static table of appendix A of RFC 7541 and the tokens lib/nghttp2_hd.c gives to header names. */
module StaticTable {
  import opened Bytes

  datatype Field = Field(name: Bytes, value: Bytes)

  const STATIC_TABLE_LENGTH := 61
  const TOKEN_COUNT := 67

  /** An ASCII literal as bytes. */
  function Ascii(s: string): Bytes
  {
    seq(|s|, i requires 0 <= i < |s| => if s[i] as int < 256 then s[i] as int else 0)
  }

  function Named(name: string, value: string): Field { Field(Ascii(name), Ascii(value)) }

  /** static_table[i]. */
  function StaticField(i: nat): Field
    requires i < STATIC_TABLE_LENGTH
  {
    match i
    case 0 => Named(":authority", "") case 1 => Named(":method", "GET") case 2 => Named(":method", "POST")
    case 3 => Named(":path", "/") case 4 => Named(":path", "/index.html") case 5 => Named(":scheme", "http")
    case 6 => Named(":scheme", "https") case 7 => Named(":status", "200") case 8 => Named(":status", "204")
    case 9 => Named(":status", "206") case 10 => Named(":status", "304") case 11 => Named(":status", "400")
    case 12 => Named(":status", "404") case 13 => Named(":status", "500") case 14 => Named("accept-charset", "")
    case 15 => Named("accept-encoding", "gzip, deflate") case 16 => Named("accept-language", "")
    case 17 => Named("accept-ranges", "") case 18 => Named("accept", "")
    case 19 => Named("access-control-allow-origin", "") case 20 => Named("age", "") case 21 => Named("allow", "")
    case 22 => Named("authorization", "") case 23 => Named("cache-control", "")
    case 24 => Named("content-disposition", "") case 25 => Named("content-encoding", "")
    case 26 => Named("content-language", "") case 27 => Named("content-length", "")
    case 28 => Named("content-location", "") case 29 => Named("content-range", "")
    case 30 => Named("content-type", "") case 31 => Named("cookie", "") case 32 => Named("date", "")
    case 33 => Named("etag", "") case 34 => Named("expect", "") case 35 => Named("expires", "")
    case 36 => Named("from", "") case 37 => Named("host", "") case 38 => Named("if-match", "")
    case 39 => Named("if-modified-since", "") case 40 => Named("if-none-match", "") case 41 => Named("if-range", "")
    case 42 => Named("if-unmodified-since", "") case 43 => Named("last-modified", "") case 44 => Named("link", "")
    case 45 => Named("location", "") case 46 => Named("max-forwards", "") case 47 => Named("proxy-authenticate", "")
    case 48 => Named("proxy-authorization", "") case 49 => Named("range", "") case 50 => Named("referer", "")
    case 51 => Named("refresh", "") case 52 => Named("retry-after", "") case 53 => Named("server", "")
    case 54 => Named("set-cookie", "") case 55 => Named("strict-transport-security", "")
    case 56 => Named("transfer-encoding", "") case 57 => Named("user-agent", "") case 58 => Named("vary", "")
    case 59 => Named("via", "") case _ => Named("www-authenticate", "")
  }

  /** The name a token stands for; tokens past the static table name six more fields. */
  function TokenName(i: nat): Bytes
    requires i < TOKEN_COUNT
  {
    if i < STATIC_TABLE_LENGTH then StaticField(i).name
    else match i
      case 61 => Ascii("te") case 62 => Ascii("connection") case 63 => Ascii("keep-alive")
      case 64 => Ascii("proxy-connection") case 65 => Ascii("upgrade") case _ => Ascii(":protocol")
  }

  /** lookup_token: the first token with this name, or -1. */
  function TokenOf(name: Bytes): (t: int)
    ensures -1 <= t < TOKEN_COUNT && (t >= 0 ==> TokenName(t) == name)
  {
    TokenFrom(name, 0)
  }

  function TokenFrom(name: Bytes, i: nat): (t: int)
    requires i <= TOKEN_COUNT
    ensures -1 <= t < TOKEN_COUNT && (t >= 0 ==> TokenName(t) == name)
    decreases TOKEN_COUNT - i
  {
    if i == TOKEN_COUNT then -1
    else if TokenName(i) == name then i
    else TokenFrom(name, i + 1)
  }

  /** static_table[i].token. */
  function StaticToken(i: nat): int
    requires i < STATIC_TABLE_LENGTH
  {
    TokenOf(StaticField(i).name)
  }

  const TOKEN_PATH := 3
  const TOKEN_AGE := 20
  const TOKEN_AUTHORIZATION := 22
  const TOKEN_CONTENT_LENGTH := 27
  const TOKEN_COOKIE := 31
  const TOKEN_ETAG := 33
  const TOKEN_IF_MODIFIED_SINCE := 39
  const TOKEN_IF_NONE_MATCH := 40
  const TOKEN_LOCATION := 45
  const TOKEN_SET_COOKIE := 54
}
