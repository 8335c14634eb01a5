/**
 * HTTP messaging rules for received requests (lib/nghttp2_http.c): header fields one by one, the end of the
 * header block, the body.  The reference is a predicate on the whole list of fields, after sections 8.1.2.3
 * and 8.1.2.6 of RFC 7540.
 */
module HttpMessage {
  import opened Bytes

  const INT64_MAX := 0x7FFF_FFFF_FFFF_FFFF

  datatype Nv = Nv(name: string, value: string)

  // ---- numbers --------------------------------------------------------------------

  predicate Digit(c: char) { '0' <= c <= '9' }

  predicate Digits(s: string) { s != [] && forall i :: 0 <= i < |s| ==> Digit(s[i]) }

  /** The number a string of digits stands for. */
  function Decimal(s: string): nat
    requires forall i :: 0 <= i < |s| ==> Digit(s[i])
  {
    if s == [] then 0 else assert Digit(s[|s| - 1]); Decimal(s[..|s| - 1]) * 10 + (s[|s| - 1] as int - '0' as int)
  }

  /** parse_uint as a number: -1 unless the string is a number below 2^63. */
  function Parse(s: string): int { if Digits(s) && Decimal(s) <= INT64_MAX then Decimal(s) else -1 }

  lemma {:induction false} DecimalGrows(s: string, i: nat)
    requires i <= |s| && forall k :: 0 <= k < |s| ==> Digit(s[k])
    ensures Decimal(s[..i]) <= Decimal(s)
    decreases |s| - i
  {
    if i == |s| {
      assert s[..i] == s;
    } else {
      DecimalGrows(s, i + 1);
      assert s[..i + 1][..i] == s[..i];
    }
  }

  /** The 64-bit checks refuse exactly the numbers that do not fit. */
  method ParseUint(s: string) returns (n: int)
    ensures n == Parse(s)
  {
    if |s| == 0 { return -1; }
    n := 0;
    var i := 0;
    while i < |s|
      invariant 0 <= i <= |s| && 0 <= n <= INT64_MAX
      invariant forall k :: 0 <= k < i ==> Digit(s[k])
      invariant n == Decimal(s[..i])
    {
      if !('0' <= s[i] <= '9') { return -1; }
      var d := s[i] as int - '0' as int;
      assert s[..i + 1][..i] == s[..i];
      assert Decimal(s[..i + 1]) == n * 10 + d;
      if n > INT64_MAX / 10 || n * 10 > INT64_MAX - d {
        if Digits(s) { DecimalGrows(s, i + 1); }
        return -1;
      }
      n := n * 10 + d;
      i := i + 1;
    }
    assert s[..|s|] == s;
  }

  // ---- characters -------------------------------------------------------------------

  predicate Lower(c: char) { 'a' <= c <= 'z' }
  predicate Upper(c: char) { 'A' <= c <= 'Z' }

  predicate NameChar(c: char) { Lower(c) || Digit(c) || c in "!#$%&'*+-.^_`|~" }

  predicate ValueChar(c: char) { c == '\t' || (' ' <= c <= '~') || (128 as char <= c <= 255 as char) }

  predicate AuthorityChar(c: char) { Lower(c) || Upper(c) || Digit(c) || c in "!$%&'()*+,-.:;=@[]_~" }

  /** nghttp2_check_header_name. */
  predicate NameOk(s: string)
  {
    && s != "" && s != ":"
    && forall i :: 0 <= i < |s| ==> NameChar(s[i]) || (i == 0 && s[0] == ':')
  }

  predicate ValueOk(s: string) { forall i :: 0 <= i < |s| ==> ValueChar(s[i]) }

  predicate AuthorityOk(s: string) { forall i :: 0 <= i < |s| ==> AuthorityChar(s[i]) }

  predicate SchemeOk(s: string)
  {
    && s != "" && (Lower(s[0]) || Upper(s[0]))
    && forall i :: 0 < i < |s| ==> SchemeChar(s[i])
  }

  predicate SchemeChar(c: char) { Lower(c) || Upper(c) || Digit(c) || c in "+-." }

  /** A name is made of the visible characters that are no delimiter in section 3.2.6 of RFC 7230, and no capital. */
  lemma NameCharIff(c: char)
    ensures NameChar(c) <==> '!' <= c <= '~' && !Upper(c) && c !in "\"(),/:;<=>?@[\\]{}"
  {
  }

  /** A value is made of tabs, spaces, visible characters and bytes outside ASCII. */
  lemma ValueCharIff(c: char)
    ensures ValueChar(c) <==> c == '\t' || (' ' <= c <= 255 as char && c != 127 as char)
  {
  }

  /** An authority is made of the characters of section 3.2 of RFC 3986: unreserved, percent, delimiters and a few. */
  lemma AuthorityCharIff(c: char)
    ensures AuthorityChar(c) <==>
            Lower(c) || Upper(c) || Digit(c) || c in "-._~" || c == '%' || c in "!$&'()*+,;=" || c in ":@[]"
  {
  }

  function DownCase(c: char): char { if Upper(c) then (c as int + 32) as char else c }

  function LowerCase(s: string): string { seq(|s|, i requires 0 <= i < |s| => DownCase(s[i])) }

  /** Comparing with a lower-case string is comparing letter by letter without regard to case. */
  lemma CaseBlind(v: string, w: string)
    requires forall i :: 0 <= i < |w| ==> !Upper(w[i])
    ensures LowerCase(v) == w <==>
            |v| == |w| && forall i :: 0 <= i < |v| ==> v[i] == w[i] || (Upper(v[i]) && v[i] as int + 32 == w[i] as int)
  {
    if LowerCase(v) == w {
      forall i | 0 <= i < |v| ensures v[i] == w[i] || (Upper(v[i]) && v[i] as int + 32 == w[i] as int) {
        assert LowerCase(v)[i] == DownCase(v[i]);
      }
    }
  }

  /** lws. */
  predicate Blank(s: string) { forall i :: 0 <= i < |s| ==> s[i] in " \t" }

  /** nghttp2_check_header_name: the loop starts behind a leading colon. */
  method CheckHeaderName(name: string) returns (ok: bool)
    ensures ok <==> NameOk(name)
  {
    if |name| == 0 { return false; }
    var i := 0;
    if name[0] == ':' {
      if |name| == 1 { return false; }
      i := 1;
    }
    while i != |name|
      invariant 0 <= i <= |name| && (i == 0 ==> name[0] != ':')
      invariant forall k :: 0 <= k < i ==> NameChar(name[k]) || (k == 0 && name[0] == ':')
      decreases |name| - i
    {
      if !NameChar(name[i]) { return false; }
      i := i + 1;
    }
    return true;
  }

  method CheckHeaderValue(value: string) returns (ok: bool)
    ensures ok <==> ValueOk(value)
  {
    for i := 0 to |value|
      invariant forall k :: 0 <= k < i ==> ValueChar(value[k])
    {
      if !ValueChar(value[i]) { return false; }
    }
    return true;
  }

  method CheckAuthority(value: string) returns (ok: bool)
    ensures ok <==> AuthorityOk(value)
  {
    for i := 0 to |value|
      invariant forall k :: 0 <= k < i ==> AuthorityChar(value[k])
    {
      if !AuthorityChar(value[i]) { return false; }
    }
    return true;
  }

  method CheckScheme(value: string) returns (ok: bool)
    ensures ok <==> SchemeOk(value)
  {
    if |value| == 0 { return false; }
    if !(Upper(value[0]) || Lower(value[0])) { return false; }
    for i := 1 to |value|
      invariant forall k :: 0 < k < i ==> SchemeChar(value[k])
    {
      var c := value[i];
      if !(Upper(c) || Lower(c) || Digit(c) || c == '+' || c == '-' || c == '.') { return false; }
    }
    return true;
  }

  method Lws(s: string) returns (ok: bool)
    ensures ok <==> Blank(s)
  {
    for i := 0 to |s|
      invariant forall k :: 0 <= k < i ==> s[k] in " \t"
    {
      if s[i] != ' ' && s[i] != '\t' { return false; }
    }
    return true;
  }

  /** memieq, on strings of equal length. */
  method MemIEq(a: string, b: string) returns (same: bool)
    requires |a| == |b|
    ensures same <==> LowerCase(a) == LowerCase(b)
  {
    for i := 0 to |a|
      invariant forall k :: 0 <= k < i ==> DownCase(a[k]) == DownCase(b[k])
    {
      if DownCase(a[i]) != DownCase(b[i]) {
        assert LowerCase(a)[i] != LowerCase(b)[i];
        return false;
      }
    }
    return true;
  }

  predicate Pseudo(nv: Nv) { nv.name != "" && nv.name[0] == ':' }

  predicate ValueFits(nv: Nv)
  {
    if nv.name == ":authority" || nv.name == "host" then AuthorityOk(nv.value)
    else if nv.name == ":scheme" then SchemeOk(nv.value)
    else ValueOk(nv.value)
  }

  // ---- the stream's state ---------------------------------------------------------------

  datatype Flag = Authority | Path | Method | Scheme | Host | Protocol | Disallowed
    | MethConnect | MethHead | MethOptions | PathRegular | PathAsterisk | SchemeHttp

  datatype Http = Http(flags: set<Flag>, contentLength: int, received: nat)

  const FRESH := Http({}, -1, 0)

  /** Ignored fields are dropped without an error. */
  datatype Verdict = Reject | Ignore(http: Http) | Pass(http: Http)

  function Add(h: Http, f: Flag): Http { h.(flags := h.flags + {f}) }

  /** check_pseudo_header, also used for host. */
  predicate Single(h: Http, value: string, f: Flag) { f !in h.flags && !Blank(value) }

  function MethodFlags(value: string): set<Flag>
  {
    if value == "HEAD" then {MethHead} else if value == "CONNECT" then {MethConnect}
    else if value == "OPTIONS" then {MethOptions} else {}
  }

  function PathFlags(value: string): set<Flag>
    requires value != ""
  {
    if value[0] == '/' then {PathRegular} else if value == "*" then {PathAsterisk} else {}
  }

  function SchemeFlags(value: string): set<Flag>
  {
    if LowerCase(value) == "http" || LowerCase(value) == "https" then {SchemeHttp} else {}
  }

  predicate ConnectionSpecific(name: string)
  {
    name == "connection" || name == "keep-alive" || name == "proxy-connection" || name == "transfer-encoding"
    || name == "upgrade"
  }

  /** The switch of http_request_on_header; `push` is set for the even stream of a PUSH_PROMISE. */
  function RequestField(h: Http, nv: Nv, push: bool, connectProtocol: bool): Option<Http>
  {
    var v := nv.value;
    if nv.name == ":authority" then (if Single(h, v, Authority) then Some(Add(h, Authority)) else None)
    else if nv.name == ":method" then
      if !Single(h, v, Method) || (v == "CONNECT" && push) then None
      else Some(h.(flags := h.flags + {Method} + MethodFlags(v)))
    else if nv.name == ":path" then
      if !Single(h, v, Path) then None else (NotEmpty(v); Some(h.(flags := h.flags + {Path} + PathFlags(v))))
    else if nv.name == ":scheme" then
      if !Single(h, v, Scheme) then None else Some(h.(flags := h.flags + {Scheme} + SchemeFlags(v)))
    else if nv.name == ":protocol" then
      if !connectProtocol || !Single(h, v, Protocol) then None else Some(Add(h, Protocol))
    else if nv.name == "host" then (if Single(h, v, Host) then Some(Add(h, Host)) else None)
    else if nv.name == "content-length" then
      if h.contentLength != -1 || Parse(v) == -1 then None else Some(h.(contentLength := Parse(v)))
    else if ConnectionSpecific(nv.name) then None
    else if nv.name == "te" then (if LowerCase(v) == "trailers" then Some(h) else None)
    else if Pseudo(nv) then None
    else Some(h)
  }

  lemma NotEmpty(v: string)
    ensures !Blank(v) ==> v != ""
  {
  }

  /** nghttp2_http_on_header on a server, or for a pushed request. */
  function OnHeader(h: Http, nv: Nv, trailer: bool, push: bool, connectProtocol: bool): Verdict
  {
    if !NameOk(nv.name) then
      if Pseudo(nv) || exists i :: 0 <= i < |nv.name| && Upper(nv.name[i]) then Reject else Ignore(Add(h, Disallowed))
    else if !ValueFits(nv) then
      if Pseudo(nv) then Reject else Ignore(Add(h, Disallowed))
    else if Pseudo(nv) && (trailer || Disallowed in h.flags) then Reject
    else
      match RequestField(h, nv, push, connectProtocol)
      case None => Reject
      case Some(n) => Pass(if Pseudo(nv) then n else Add(n, Disallowed))
  }

  /** A whole header block. */
  function Block(h: Http, hs: seq<Nv>, trailer: bool, push: bool, connectProtocol: bool): Option<Http>
  {
    if hs == [] then Some(h)
    else
      match Block(h, hs[..|hs| - 1], trailer, push, connectProtocol)
      case None => None
      case Some(n) =>
        var verdict := OnHeader(n, hs[|hs| - 1], trailer, push, connectProtocol);
        if verdict.Reject? then None else Some(verdict.http)
  }

  /** nghttp2_http_on_request_headers; None is an error. */
  function OnRequest(h: Http, push: bool): Option<Http>
  {
    var has := h.flags;
    if Protocol !in has && MethConnect in has then
      if Scheme in has || Path in has || Authority !in has then None
      else Some(if push then Cleared(h) else h.(contentLength := -1))
    else if !({Method, Path, Scheme} <= has) || (Authority !in has && Host !in has) then None
    else if Protocol in has && (MethConnect !in has || Authority !in has) then None
    else if !(SchemeHttp !in has || PathRegular in has || (MethOptions in has && PathAsterisk in has)) then None
    else Some(if push then Cleared(h) else h)
  }

  /** For a pushed request the fields are reused for the response. */
  function Cleared(h: Http): Http { h.(flags := h.flags * {MethConnect, MethHead, MethOptions}, contentLength := -1) }

  // ---- the reference ------------------------------------------------------------------------

  /** Not ignored. */
  predicate Counts(nv: Nv)
  {
    && NameOk(nv.name)
    && (nv.name in [":authority", "host"] ==> AuthorityOk(nv.value))
    && (nv.name == ":scheme" ==> SchemeOk(nv.value))
    && (nv.name !in [":authority", "host", ":scheme"] ==> ValueOk(nv.value))
  }

  /** The values of the fields with this name that count, in order. */
  function Values(hs: seq<Nv>, name: string): seq<string>
  {
    if hs == [] then []
    else Values(hs[..|hs| - 1], name)
         + (if Counts(hs[|hs| - 1]) && hs[|hs| - 1].name == name then [hs[|hs| - 1].value] else [])
  }

  predicate AnyRegular(hs: seq<Nv>) { exists i :: 0 <= i < |hs| && !Pseudo(hs[i]) }

  predicate OneTime(name: string)
  {
    name == ":authority" || name == ":method" || name == ":path"
    || name == ":scheme" || name == ":protocol" || name == "host"
  }

  /** The values of the fields the rules speak about. */
  datatype Seen = Seen(authority: seq<string>, path: seq<string>, method_: seq<string>, scheme: seq<string>,
                       host: seq<string>, protocol: seq<string>, length: seq<string>, regular: bool)

  function See(hs: seq<Nv>): Seen
  {
    Seen(Values(hs, ":authority"), Values(hs, ":path"), Values(hs, ":method"), Values(hs, ":scheme"),
         Values(hs, "host"), Values(hs, ":protocol"), Values(hs, "content-length"), AnyRegular(hs))
  }

  const NOTHING_SEEN := Seen([], [], [], [], [], [], [], false)

  predicate Saw(s: Seen, name: string)
  {
    if name == ":authority" then s.authority != [] else if name == ":method" then s.method_ != []
    else if name == ":path" then s.path != [] else if name == ":scheme" then s.scheme != []
    else if name == ":protocol" then s.protocol != [] else s.host != []
  }

  /** What may come after fields of which `s` was seen; `trailer` tells that the header block is a trailer. */
  predicate AllowedAfter(s: Seen, nv: Nv, trailer: bool, push: bool, connectProtocol: bool)
  {
    && (Pseudo(nv) ==> Counts(nv) && !trailer && !s.regular && OneTime(nv.name))
    && (!NameOk(nv.name) ==> forall i :: 0 <= i < |nv.name| ==> !Upper(nv.name[i]))
    && (Counts(nv) ==>
          && (OneTime(nv.name) ==> !Saw(s, nv.name) && !Blank(nv.value))
          && (nv.name == ":method" && push ==> nv.value != "CONNECT")
          && (nv.name == ":protocol" ==> connectProtocol)
          && (nv.name == "content-length" ==> s.length == [] && Digits(nv.value) && Decimal(nv.value) <= INT64_MAX)
          && (nv.name == "te" ==> LowerCase(nv.value) == "trailers")
          && nv.name !in ["connection", "keep-alive", "proxy-connection", "transfer-encoding", "upgrade"])
  }

  /** The flags and the length say exactly what was seen. */
  ghost predicate Match(h: Http, s: Seen)
  {
    && (Authority in h.flags <==> s.authority != [])
    && (Path in h.flags <==> s.path != [])
    && (Method in h.flags <==> s.method_ != [])
    && (Scheme in h.flags <==> s.scheme != [])
    && (Host in h.flags <==> s.host != [])
    && (Protocol in h.flags <==> s.protocol != [])
    && (Disallowed in h.flags <==> s.regular)
    && (MethConnect in h.flags <==> s.method_ == ["CONNECT"])
    && (MethOptions in h.flags <==> s.method_ == ["OPTIONS"])
    && (MethHead in h.flags <==> s.method_ == ["HEAD"])
    && (PathRegular in h.flags <==> s.path != [] && s.path[0] != "" && s.path[0][0] == '/')
    && (PathAsterisk in h.flags <==> s.path == ["*"])
    && (SchemeHttp in h.flags <==> s.scheme != [] && LowerCase(s.scheme[0]) in ["http", "https"])
    && h.contentLength == (if s.length != [] then Parse(s.length[0]) else -1)
    && (s.length != [] ==> h.contentLength >= 0)
  }

  // ---- the state machine meets the reference ------------------------------------------------

  lemma ValuesSnoc(hs: seq<Nv>, nv: Nv, name: string)
    ensures Values(hs + [nv], name) == Values(hs, name) + (if Counts(nv) && nv.name == name then [nv.value] else [])
  {
    assert (hs + [nv])[..|hs|] == hs;
  }

  lemma RegularSnoc(hs: seq<Nv>, nv: Nv)
    ensures AnyRegular(hs + [nv]) <==> AnyRegular(hs) || !Pseudo(nv)
  {
    var t := hs + [nv];
    assert t[|hs|] == nv;
    if AnyRegular(hs) {
      var i :| 0 <= i < |hs| && !Pseudo(hs[i]);
      assert t[i] == hs[i];
    }
  }

  /** What one more field adds. */
  function SeeOne(s: Seen, nv: Nv): Seen
  {
    var t := s.(regular := s.regular || !Pseudo(nv));
    if !Counts(nv) then t
    else if nv.name == ":authority" then t.(authority := s.authority + [nv.value])
    else if nv.name == ":path" then t.(path := s.path + [nv.value])
    else if nv.name == ":method" then t.(method_ := s.method_ + [nv.value])
    else if nv.name == ":scheme" then t.(scheme := s.scheme + [nv.value])
    else if nv.name == "host" then t.(host := s.host + [nv.value])
    else if nv.name == ":protocol" then t.(protocol := s.protocol + [nv.value])
    else if nv.name == "content-length" then t.(length := s.length + [nv.value])
    else t
  }

  lemma SeeSnoc(hs: seq<Nv>, nv: Nv)
    ensures See(hs + [nv]) == SeeOne(See(hs), nv)
  {
    hide Values, Counts, AnyRegular;
    RegularSnoc(hs, nv);
    ValuesSnoc(hs, nv, ":authority");
    ValuesSnoc(hs, nv, ":path");
    ValuesSnoc(hs, nv, ":method");
    ValuesSnoc(hs, nv, ":scheme");
    ValuesSnoc(hs, nv, "host");
    ValuesSnoc(hs, nv, ":protocol");
    ValuesSnoc(hs, nv, "content-length");
  }

  lemma PseudoNames(nv: Nv)
    ensures OneTime(nv.name) && nv.name != "host" ==> Pseudo(nv)
    ensures nv.name == "host" || nv.name == "content-length" || nv.name == "te" || ConnectionSpecific(nv.name)
            ==> !Pseudo(nv)
  {
  }

  lemma CountsIff(nv: Nv)
    ensures Counts(nv) <==> NameOk(nv.name) && ValueFits(nv)
  {
    hide NameOk, AuthorityOk, SchemeOk, ValueOk;
  }

  lemma SpecificNames(name: string)
    ensures ConnectionSpecific(name) <==>
            name in ["connection", "keep-alive", "proxy-connection", "transfer-encoding", "upgrade"]
  {
  }

  lemma FieldVerdict(h: Http, s: Seen, nv: Nv, trailer: bool, push: bool, connectProtocol: bool)
    requires Match(h, s)
    ensures OnHeader(h, nv, trailer, push, connectProtocol).Reject? <==>
            !AllowedAfter(s, nv, trailer, push, connectProtocol)
  {
    hide NameOk, ValueFits, Blank, LowerCase, SchemeFlags, PathFlags, MethodFlags, Digits, Decimal, Counts,
      ConnectionSpecific;
    PseudoNames(nv);
    CountsIff(nv);
    SpecificNames(nv.name);
  }

  /** An allowed field is handed on to the application exactly if it counts, and dropped otherwise. */
  lemma HandedOnIff(h: Http, s: Seen, nv: Nv, trailer: bool, push: bool, connectProtocol: bool)
    requires Match(h, s)
    ensures var v, allowed := OnHeader(h, nv, trailer, push, connectProtocol),
              AllowedAfter(s, nv, trailer, push, connectProtocol);
            (v.Pass? <==> allowed && Counts(nv)) && (v.Ignore? <==> allowed && !Counts(nv))
  {
    hide NameOk, ValueFits, RequestField, AllowedAfter, Match, Counts;
    CountsIff(nv);
    FieldVerdict(h, s, nv, trailer, push, connectProtocol);
  }

  // What each accepted field does to the flags.

  lemma RegularMatch(h: Http, s: Seen)
    requires Match(h, s)
    ensures Match(Add(h, Disallowed), s.(regular := true))
  {
  }

  lemma AuthorityMatch(h: Http, s: Seen, v: string)
    requires Match(h, s)
    ensures Match(Add(h, Authority), s.(authority := s.authority + [v]))
  {
  }

  lemma ProtocolMatch(h: Http, s: Seen, v: string)
    requires Match(h, s)
    ensures Match(Add(h, Protocol), s.(protocol := s.protocol + [v]))
  {
  }

  lemma HostMatch(h: Http, s: Seen, v: string)
    requires Match(h, s)
    ensures Match(Add(h, Host), s.(host := s.host + [v]))
  {
  }

  lemma LengthMatch(h: Http, s: Seen, v: string)
    requires Match(h, s) && h.contentLength == -1 && Parse(v) != -1
    ensures Match(h.(contentLength := Parse(v)), s.(length := s.length + [v]))
  {
    ParseRange(v);
  }

  lemma ParseRange(v: string)
    ensures Parse(v) >= -1
  {
  }

  lemma OneValue(v: string, w: string)
    ensures [v] == [w] <==> v == w
  {
    assert [v][0] == v && [w][0] == w;
  }

  lemma MethodMatch(h: Http, s: Seen, v: string)
    requires Match(h, s) && Method !in h.flags
    ensures Match(h.(flags := h.flags + {Method} + MethodFlags(v)), s.(method_ := s.method_ + [v]))
  {
    hide LowerCase, Parse;
    assert s.method_ + [v] == [v];
    OneValue(v, "CONNECT");
    OneValue(v, "OPTIONS");
    OneValue(v, "HEAD");
  }

  lemma PathMatch(h: Http, s: Seen, v: string)
    requires Match(h, s) && Path !in h.flags && v != ""
    ensures Match(h.(flags := h.flags + {Path} + PathFlags(v)), s.(path := s.path + [v]))
  {
    hide LowerCase, Parse;
    assert s.path + [v] == [v];
    OneValue(v, "*");
  }

  lemma SchemeMatch(h: Http, s: Seen, v: string)
    requires Match(h, s) && Scheme !in h.flags
    ensures Match(h.(flags := h.flags + {Scheme} + SchemeFlags(v)), s.(scheme := s.scheme + [v]))
  {
    SchemeFlag(v);
    hide SchemeFlags, Parse, LowerCase;
    assert s.scheme + [v] == [v];
  }

  lemma SchemeFlag(v: string)
    ensures SchemeFlags(v) == if LowerCase(v) in ["http", "https"] then {SchemeHttp} else {}
  {
  }

  lemma PassMatch(h: Http, s: Seen, nv: Nv, push: bool, connectProtocol: bool)
    requires Match(h, s) && Counts(nv) && RequestField(h, nv, push, connectProtocol).Some?
    ensures var n := RequestField(h, nv, push, connectProtocol).value;
            Match(n, SeeOne(s, nv).(regular := s.regular))
  {
    hide Match, Counts, Blank, LowerCase, SchemeFlags, PathFlags, MethodFlags, Parse;
    NotEmpty(nv.value);
    var v := nv.value;
    if nv.name == ":authority" { AuthorityMatch(h, s, v); }
    else if nv.name == ":method" { MethodMatch(h, s, v); }
    else if nv.name == ":path" { PathMatch(h, s, v); }
    else if nv.name == ":scheme" { SchemeMatch(h, s, v); }
    else if nv.name == ":protocol" { ProtocolMatch(h, s, v); }
    else if nv.name == "host" { HostMatch(h, s, v); }
    else if nv.name == "content-length" { LengthMatch(h, s, v); }
  }

  lemma FieldTracks(h: Http, s: Seen, nv: Nv, trailer: bool, push: bool, connectProtocol: bool)
    requires Match(h, s) && !OnHeader(h, nv, trailer, push, connectProtocol).Reject?
    ensures Match(OnHeader(h, nv, trailer, push, connectProtocol).http, SeeOne(s, nv))
    ensures OnHeader(h, nv, trailer, push, connectProtocol).http.received == h.received
  {
    hide Match, NameOk, ValueFits, RequestField, Counts;
    CountsIff(nv);
    FieldReceived(h, nv, push, connectProtocol);
    if !Counts(nv) {
      RegularMatch(h, s);
    } else {
      PassMatch(h, s, nv, push, connectProtocol);
      if !Pseudo(nv) {
        RegularMatch(RequestField(h, nv, push, connectProtocol).value, SeeOne(s, nv).(regular := s.regular));
      }
    }
  }

  lemma FieldReceived(h: Http, nv: Nv, push: bool, connectProtocol: bool)
    ensures RequestField(h, nv, push, connectProtocol).Some? ==>
              RequestField(h, nv, push, connectProtocol).value.received == h.received
  {
    hide LowerCase, SchemeFlags, PathFlags, MethodFlags, Parse, Blank;
  }

  /** What is seen after a header block more. */
  function SeeAll(s: Seen, hs: seq<Nv>): Seen
  {
    if hs == [] then s else SeeOne(SeeAll(s, hs[..|hs| - 1]), hs[|hs| - 1])
  }

  lemma {:induction false} SeeIsAll(hs: seq<Nv>)
    ensures See(hs) == SeeAll(NOTHING_SEEN, hs)
  {
    if hs != [] {
      var t, nv := hs[..|hs| - 1], hs[|hs| - 1];
      assert hs == t + [nv];
      SeeSnoc(t, nv);
      SeeIsAll(t);
    }
  }

  /** Every field of the block is allowed where it stands. */
  ghost predicate AllAllowed(s: Seen, hs: seq<Nv>, trailer: bool, push: bool, connectProtocol: bool)
  {
    forall k :: 0 <= k < |hs| ==> AllowedAfter(SeeAll(s, hs[..k]), hs[k], trailer, push, connectProtocol)
  }

  /** A header block gets through exactly when every field is allowed where it stands. */
  lemma {:induction false} BlockAccepts(h: Http, s: Seen, hs: seq<Nv>, trailer: bool, push: bool, connectProtocol: bool)
    requires Match(h, s)
    ensures Block(h, hs, trailer, push, connectProtocol).Some? <==> AllAllowed(s, hs, trailer, push, connectProtocol)
    ensures Block(h, hs, trailer, push, connectProtocol).Some? ==>
              var n := Block(h, hs, trailer, push, connectProtocol).value;
              Match(n, SeeAll(s, hs)) && n.received == h.received
  {
    hide Match, AllowedAfter, OnHeader, SeeOne, AllAllowed;
    if hs == [] {
      NoFields(s, trailer, push, connectProtocol);
    } else {
      var t, nv := hs[..|hs| - 1], hs[|hs| - 1];
      assert hs == t + [nv];
      BlockAccepts(h, s, t, trailer, push, connectProtocol);
      AllowedSnoc(s, t, nv, trailer, push, connectProtocol);
      var b := Block(h, t, trailer, push, connectProtocol);
      if b.Some? {
        FieldVerdict(b.value, SeeAll(s, t), nv, trailer, push, connectProtocol);
        if !OnHeader(b.value, nv, trailer, push, connectProtocol).Reject? {
          FieldTracks(b.value, SeeAll(s, t), nv, trailer, push, connectProtocol);
        }
      }
    }
  }

  /** The fields of a block that are handed on. */
  function HandedOn(h: Http, hs: seq<Nv>, trailer: bool, push: bool, connectProtocol: bool): seq<Nv>
    requires Block(h, hs, trailer, push, connectProtocol).Some?
  {
    if hs == [] then []
    else
      var t, nv := hs[..|hs| - 1], hs[|hs| - 1];
      var b := Block(h, t, trailer, push, connectProtocol).value;
      HandedOn(h, t, trailer, push, connectProtocol)
      + if OnHeader(b, nv, trailer, push, connectProtocol).Pass? then [nv] else []
  }

  /** Those that count. */
  function Counting(hs: seq<Nv>): seq<Nv>
  {
    if hs == [] then [] else Counting(hs[..|hs| - 1]) + if Counts(hs[|hs| - 1]) then [hs[|hs| - 1]] else []
  }

  /** The application gets exactly the fields that count, in order. */
  lemma {:induction false} BlockHandsOn(h: Http, s: Seen, hs: seq<Nv>, trailer: bool, push: bool, connectProtocol: bool)
    requires Match(h, s) && Block(h, hs, trailer, push, connectProtocol).Some?
    ensures HandedOn(h, hs, trailer, push, connectProtocol) == Counting(hs)
  {
    hide Match, AllAllowed, OnHeader, Counts, SeeAll, AllowedAfter;
    if hs != [] {
      var t, nv := hs[..|hs| - 1], hs[|hs| - 1];
      BlockHandsOn(h, s, t, trailer, push, connectProtocol);
      BlockAccepts(h, s, t, trailer, push, connectProtocol);
      HandedOnIff(Block(h, t, trailer, push, connectProtocol).value, SeeAll(s, t), nv, trailer, push, connectProtocol);
    }
  }

  lemma NoFields(s: Seen, trailer: bool, push: bool, connectProtocol: bool)
    ensures SeeAll(s, []) == s && AllAllowed(s, [], trailer, push, connectProtocol)
  {
  }

  lemma NothingSeen()
    ensures Match(FRESH, NOTHING_SEEN) && See([]) == NOTHING_SEEN
  {
  }

  lemma AllowedSnoc(s: Seen, t: seq<Nv>, nv: Nv, trailer: bool, push: bool, connectProtocol: bool)
    ensures AllAllowed(s, t + [nv], trailer, push, connectProtocol) <==>
            AllAllowed(s, t, trailer, push, connectProtocol)
            && AllowedAfter(SeeAll(s, t), nv, trailer, push, connectProtocol)
  {
    hide AllowedAfter, SeeAll;
    var hs := t + [nv];
    assert hs[..|t|] == t && hs[|t|] == nv;
    forall k | 0 <= k < |t|
      ensures AllowedAfter(SeeAll(s, hs[..k]), hs[k], trailer, push, connectProtocol)
           == AllowedAfter(SeeAll(s, t[..k]), t[k], trailer, push, connectProtocol)
    {
      assert hs[..k] == t[..k];
    }
  }

  // ---- requests ----------------------------------------------------------------------------

  /** The pseudo-header fields a request needs, with the rule for CONNECT. */
  predicate Complete(s: Seen)
  {
    if s.protocol == [] && s.method_ == ["CONNECT"] then s.scheme == [] && s.path == [] && s.authority != []
    else
      && s.method_ != [] && s.path != [] && s.scheme != [] && (s.authority != [] || s.host != [])
      && (s.protocol != [] ==> s.method_ == ["CONNECT"] && s.authority != [])
      && (LowerCase(s.scheme[0]) == "http" || LowerCase(s.scheme[0]) == "https" ==>
            (s.path[0] != "" && s.path[0][0] == '/') || (s.method_ == ["OPTIONS"] && s.path == ["*"]))
  }

  /** nghttp2_http_on_request_headers accepts exactly the complete requests. */
  lemma RequestAccepts(h: Http, s: Seen, push: bool)
    requires Match(h, s)
    ensures OnRequest(h, push).Some? <==> Complete(s)
  {
    hide Parse, LowerCase;
  }

  /** A request is accepted exactly when each field is allowed where it stands and the request is complete. */
  lemma RequestIff(hs: seq<Nv>, push: bool, connectProtocol: bool)
    ensures var b := Block(FRESH, hs, false, push, connectProtocol);
            b.Some? && OnRequest(b.value, push).Some?
            <==> AllAllowed(NOTHING_SEEN, hs, false, push, connectProtocol) && Complete(See(hs))
  {
    hide Match, Complete, OnRequest, AllAllowed, Block, SeeAll;
    NothingSeen();
    SeeIsAll(hs);
    BlockAccepts(FRESH, NOTHING_SEEN, hs, false, push, connectProtocol);
    var b := Block(FRESH, hs, false, push, connectProtocol);
    if b.Some? { RequestAccepts(b.value, See(hs), push); }
  }

  /** None of the fields the rules speak about has come twice, and the length is a number. */
  predicate Once(s: Seen)
  {
    && |s.authority| <= 1 && |s.path| <= 1 && |s.method_| <= 1 && |s.scheme| <= 1 && |s.host| <= 1 && |s.protocol| <= 1
    && |s.length| <= 1 && forall v :: v in s.length ==> Digits(v) && Decimal(v) <= INT64_MAX
  }

  lemma OnceMore(s: Seen, nv: Nv, trailer: bool, push: bool, connectProtocol: bool)
    requires Once(s) && AllowedAfter(s, nv, trailer, push, connectProtocol)
    ensures Once(SeeOne(s, nv))
  {
    hide Counts, Blank, LowerCase, Digits, Decimal;
  }

  lemma {:induction false} OnceAll(s: Seen, hs: seq<Nv>, trailer: bool, push: bool, connectProtocol: bool)
    requires Once(s) && AllAllowed(s, hs, trailer, push, connectProtocol)
    ensures Once(SeeAll(s, hs))
  {
    hide Once, AllowedAfter, SeeOne;
    if hs != [] {
      var t, nv := hs[..|hs| - 1], hs[|hs| - 1];
      assert hs == t + [nv];
      AllowedSnoc(s, t, nv, trailer, push, connectProtocol);
      OnceAll(s, t, trailer, push, connectProtocol);
      OnceMore(SeeAll(s, t), nv, trailer, push, connectProtocol);
    }
  }

  lemma {:induction false} RegularStays(s: Seen, hs: seq<Nv>, i: nat)
    requires i < |hs| && !Pseudo(hs[i])
    ensures SeeAll(s, hs).regular
  {
    if i < |hs| - 1 { RegularStays(s, hs[..|hs| - 1], i); }
  }

  /**
   * In an accepted block pseudo-header fields come first, are known and stand in no trailer; what the rules speak
   * about has come once at most, in the request and the trailer together.
   */
  lemma AllowedMeans(s: Seen, hs: seq<Nv>, trailer: bool, push: bool, connectProtocol: bool)
    requires Once(s) && AllAllowed(s, hs, trailer, push, connectProtocol)
    ensures forall i, j :: 0 <= i < j < |hs| && Pseudo(hs[j]) ==> Pseudo(hs[i])
    ensures forall i :: 0 <= i < |hs| && Pseudo(hs[i]) ==> !trailer && OneTime(hs[i].name)
    ensures forall i :: 0 <= i < |hs| && Counts(hs[i]) ==> !ConnectionSpecific(hs[i].name)
    ensures Once(SeeAll(s, hs))
  {
    hide Blank, LowerCase, Digits, Decimal, Counts, SeeAll, Once, Saw;
    forall i, j | 0 <= i < j < |hs| && Pseudo(hs[j]) ensures Pseudo(hs[i]) {
      assert AllowedAfter(SeeAll(s, hs[..j]), hs[j], trailer, push, connectProtocol);
      assert hs[..j][i] == hs[i];
      if !Pseudo(hs[i]) { RegularStays(s, hs[..j], i); }
    }
    forall i | 0 <= i < |hs|
      ensures Pseudo(hs[i]) ==> !trailer && OneTime(hs[i].name)
      ensures Counts(hs[i]) ==> !ConnectionSpecific(hs[i].name)
    {
      assert AllowedAfter(SeeAll(s, hs[..i]), hs[i], trailer, push, connectProtocol);
    }
    OnceAll(s, hs, trailer, push, connectProtocol);
  }

  // ---- bodies ----------------------------------------------------------------------------------

  function Sum(chunks: seq<nat>): nat { if chunks == [] then 0 else Sum(chunks[..|chunks| - 1]) + chunks[|chunks| - 1] }

  /** nghttp2_http_on_data_chunk. */
  function OnData(h: Http, n: nat): Option<Http>
  {
    var m := h.(received := h.received + n);
    if h.contentLength != -1 && m.received > h.contentLength then None else Some(m)
  }

  /** nghttp2_http_on_remote_end_stream. */
  predicate OnEnd(h: Http) { h.contentLength == -1 || h.contentLength == h.received }

  function Body(h: Http, chunks: seq<nat>): Option<Http>
  {
    if chunks == [] then Some(h)
    else
      match Body(h, chunks[..|chunks| - 1])
      case None => None
      case Some(m) => OnData(m, chunks[|chunks| - 1])
  }

  lemma {:induction false} BodySum(h: Http, chunks: seq<nat>)
    requires h.contentLength >= -1 && (h.contentLength == -1 || h.received <= h.contentLength)
    ensures Body(h, chunks).Some? <==> h.contentLength == -1 || h.received + Sum(chunks) <= h.contentLength
    ensures Body(h, chunks).Some? ==> Body(h, chunks).value == h.(received := h.received + Sum(chunks))
  {
    if chunks != [] { BodySum(h, chunks[..|chunks| - 1]); }
  }

  // ---- the count of received bytes in 64 bits --------------------------------------------------

  /** Every addition that nghttp2_http_on_data_chunk makes stays within the signed 64-bit count. */
  ghost predicate Counted(h: Http, chunks: seq<nat>)
  {
    forall k :: 0 <= k < |chunks| ==> CountedAt(h, chunks, k)
  }

  predicate CountedAt(h: Http, chunks: seq<nat>, k: nat)
    requires k < |chunks|
  {
    Body(h, chunks[..k]).Some? ==> h.received + Sum(chunks[..k + 1]) <= INT64_MAX
  }

  lemma {:induction false} SumGrows(chunks: seq<nat>, k: nat, j: nat)
    requires k <= j <= |chunks|
    ensures Sum(chunks[..k]) <= Sum(chunks[..j])
    decreases j
  {
    if k < j {
      assert chunks[..j][..j - 1] == chunks[..j - 1];
      SumGrows(chunks, k, j - 1);
    }
  }

  /** The first chunk that takes the sum beyond `limit`. */
  lemma {:induction false} FirstBeyond(chunks: seq<nat>, limit: nat) returns (k: nat)
    requires Sum(chunks) > limit
    ensures 0 < k <= |chunks| && Sum(chunks[..k - 1]) <= limit < Sum(chunks[..k])
  {
    var t := chunks[..|chunks| - 1];
    if Sum(t) <= limit {
      assert chunks[..|chunks|] == chunks;
      return |chunks|;
    }
    k := FirstBeyond(t, limit);
    assert t[..k] == chunks[..k] && t[..k - 1] == chunks[..k - 1];
  }

  /** Without a declared length the count fits exactly if all that is received does. */
  lemma CountedUndeclared(h: Http, chunks: seq<nat>)
    requires h.received == 0 && h.contentLength == -1
    ensures Counted(h, chunks) <==> Sum(chunks) <= INT64_MAX
  {
    hide Sum, Body;
    assert chunks[..|chunks|] == chunks;
    if Sum(chunks) <= INT64_MAX {
      forall k | 0 <= k < |chunks| ensures CountedAt(h, chunks, k) { SumGrows(chunks, k + 1, |chunks|); }
    } else {
      var k := FirstBeyond(chunks, INT64_MAX);
      BodySum(h, chunks[..k - 1]);
      assert !CountedAt(h, chunks, k - 1);
    }
  }

  /**
   * With a declared length it fits exactly if all that is received does, or the sum passes the declared length without
   * passing the 64 bits, upon which the message is refused.
   */
  lemma CountedDeclared(h: Http, chunks: seq<nat>)
    requires h.received == 0 && 0 <= h.contentLength <= INT64_MAX
    ensures Counted(h, chunks) <==>
            || Sum(chunks) <= INT64_MAX
            || exists k :: 0 <= k <= |chunks| && h.contentLength < Sum(chunks[..k]) <= INT64_MAX
  {
    hide Sum, Body;
    assert chunks[..|chunks|] == chunks;
    forall j | 0 <= j < |chunks| ensures Body(h, chunks[..j]).Some? <==> Sum(chunks[..j]) <= h.contentLength {
      BodySum(h, chunks[..j]);
    }
    if Sum(chunks) > INT64_MAX {
      if Counted(h, chunks) {
        var k := FirstBeyond(chunks, h.contentLength);
        assert CountedAt(h, chunks, k - 1);
      }
      if k :| 0 <= k <= |chunks| && h.contentLength < Sum(chunks[..k]) <= INT64_MAX {
        forall j | 0 <= j < |chunks| ensures CountedAt(h, chunks, j) {
          if j >= k { SumGrows(chunks, k, j); } else { SumGrows(chunks, j + 1, k); }
        }
      }
    } else {
      forall j | 0 <= j < |chunks| ensures CountedAt(h, chunks, j) { SumGrows(chunks, j + 1, |chunks|); }
    }
  }

  /** However much is sent, the count fits if the declared length leaves room for one more chunk. */
  lemma CountedRoom(h: Http, chunks: seq<nat>, room: nat)
    requires h.received == 0 && 0 <= h.contentLength <= INT64_MAX - room
    requires forall k :: 0 <= k < |chunks| ==> chunks[k] <= room
    ensures Counted(h, chunks)
  {
    hide Body;
    forall k | 0 <= k < |chunks| ensures CountedAt(h, chunks, k) {
      BodySum(h, chunks[..k]);
      assert chunks[..k + 1][..k] == chunks[..k];
    }
  }

  lemma BodyKeeps(h: Http, s: Seen, chunks: seq<nat>)
    requires Match(h, s) && h.received == 0 && Body(h, chunks).Some?
    ensures Match(Body(h, chunks).value, s) && Body(h, chunks).value.received == Sum(chunks)
  {
    LengthRange(h, s);
    BodySum(h, chunks);
  }

  lemma LengthRange(h: Http, s: Seen)
    requires Match(h, s)
    ensures h.contentLength >= -1 && (h.contentLength == -1 <==> s.length == [])
    ensures s.length != [] ==> Digits(s.length[0]) && h.contentLength == Decimal(s.length[0])
  {
    hide SchemeFlags;
  }

  /** An ordinary CONNECT has no body length: what was declared is forgotten. */
  function Forgotten(s: Seen): Seen
  {
    if s.protocol == [] && s.method_ == ["CONNECT"] then s.(length := []) else s
  }

  lemma RequestState(h: Http, s: Seen)
    requires Match(h, s) && OnRequest(h, false).Some?
    ensures Match(OnRequest(h, false).value, Forgotten(s)) && OnRequest(h, false).value.received == h.received
  {
    hide Parse, SchemeFlags;
  }

  /** Of an accepted pushed request only its method is remembered, for the response that is to come. */
  lemma PushedState(h: Http, s: Seen)
    requires Match(h, s) && OnRequest(h, true).Some?
    ensures var n := OnRequest(h, true).value;
            && n.contentLength == -1 && n.received == h.received
            && (MethHead in n.flags <==> s.method_ == ["HEAD"])
            && (MethOptions in n.flags <==> s.method_ == ["OPTIONS"])
            && (MethConnect in n.flags <==> s.method_ == ["CONNECT"]) && n.flags <= {MethHead, MethOptions, MethConnect}
  {
    hide Parse, SchemeFlags;
  }

  /** A HEADERS frame after the request, with or without END_STREAM. */
  datatype Trailer = Trailer(fields: seq<Nv>, endStream: bool)

  /** The end of the message, on the last DATA or HEADERS frame; nghttp2_http_on_trailer_headers wants END_STREAM. */
  predicate Finished(h: Http, chunks: seq<nat>, trailer: Option<Trailer>, connectProtocol: bool)
  {
    && Body(h, chunks).Some?
    && match trailer
       case None => OnEnd(Body(h, chunks).value)
       case Some(ts) =>
         var t := Block(Body(h, chunks).value, ts.fields, true, false, connectProtocol);
         t.Some? && ts.endStream && OnEnd(t.value)
  }

  /** A request, its body and perhaps a trailer. */
  predicate Accepted(hs: seq<Nv>, chunks: seq<nat>, trailer: Option<Trailer>, connectProtocol: bool)
  {
    var b := Block(FRESH, hs, false, false, connectProtocol);
    b.Some? && OnRequest(b.value, false).Some?
    && Finished(OnRequest(b.value, false).value, chunks, trailer, connectProtocol)
  }

  function TrailerFields(trailer: Option<Trailer>): seq<Nv> { if trailer.Some? then trailer.value.fields else [] }

  lemma FinishedIff(h: Http, s: Seen, chunks: seq<nat>, trailer: Option<Trailer>, connectProtocol: bool)
    requires Match(h, s) && h.received == 0
    ensures var end := SeeAll(s, TrailerFields(trailer));
            && (end.length != [] && AllAllowed(s, TrailerFields(trailer), true, false, connectProtocol)
                ==> Digits(end.length[0]))
            && (Finished(h, chunks, trailer, connectProtocol) <==>
                && AllAllowed(s, TrailerFields(trailer), true, false, connectProtocol)
                && (trailer.Some? ==> trailer.value.endStream)
                && (end.length == [] || Sum(chunks) == Decimal(end.length[0])))
  {
    hide Match, AllAllowed, Block, SeeAll, Body, Decimal, Digits;
    var ts := TrailerFields(trailer);
    LengthRange(h, s);
    BodySum(h, chunks);
    NoFields(s, true, false, connectProtocol);
    BlockAccepts(h, s, ts, true, false, connectProtocol);
    if Block(h, ts, true, false, connectProtocol).Some? {
      LengthRange(Block(h, ts, true, false, connectProtocol).value, SeeAll(s, ts));
    }
    LengthKept(s, ts);
    if Body(h, chunks).Some? {
      BodyKeeps(h, s, chunks);
      var m := Body(h, chunks).value;
      BlockAccepts(m, s, ts, true, false, connectProtocol);
      if Block(m, ts, true, false, connectProtocol).Some? {
        LengthRange(Block(m, ts, true, false, connectProtocol).value, SeeAll(s, ts));
      }
    }
  }

  lemma {:induction false} LengthKept(s: Seen, hs: seq<Nv>)
    ensures s.length != [] ==> SeeAll(s, hs).length != [] && SeeAll(s, hs).length[0] == s.length[0]
  {
    if hs != [] { LengthKept(s, hs[..|hs| - 1]); }
  }

  /**
   * A message is finished without an error exactly when its request is, the fields of its trailer are allowed where
   * they stand, and the DATA received adds up to the content-length, wherever that was declared.
   */
  lemma MessageIff(hs: seq<Nv>, chunks: seq<nat>, trailer: Option<Trailer>, connectProtocol: bool)
    ensures var s := Forgotten(See(hs));
            var end := SeeAll(s, TrailerFields(trailer));
            var fine := AllAllowed(NOTHING_SEEN, hs, false, false, connectProtocol) && Complete(See(hs))
                        && AllAllowed(s, TrailerFields(trailer), true, false, connectProtocol);
            && (fine && end.length != [] ==> Digits(end.length[0]))
            && (Accepted(hs, chunks, trailer, connectProtocol) <==>
                && fine && (trailer.Some? ==> trailer.value.endStream)
                && (end.length == [] || Sum(chunks) == Decimal(end.length[0])))
  {
    hide Match, AllAllowed, Block, SeeAll, Finished, OnRequest, Complete, Decimal, Digits, See, Forgotten;
    RequestIff(hs, false, connectProtocol);
    NothingSeen();
    SeeIsAll(hs);
    BlockAccepts(FRESH, NOTHING_SEEN, hs, false, false, connectProtocol);
    var b := Block(FRESH, hs, false, false, connectProtocol);
    if b.Some? && OnRequest(b.value, false).Some? {
      RequestState(b.value, See(hs));
      FinishedIff(OnRequest(b.value, false).value, Forgotten(See(hs)), chunks, trailer, connectProtocol);
    }
  }
}
