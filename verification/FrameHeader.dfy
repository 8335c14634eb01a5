/** The nine-octet frame header and the priority field of lib/nghttp2_frame.c, with their flag bits. */
module FrameHeader {
  import opened Bytes

  const HEADERS: byte := 1
  const CONTINUATION: byte := 9
  const END_STREAM: byte := 1
  const END_HEADERS: byte := 4
  const PADDED: byte := 8
  const PRIORITY: byte := 32
  const HEADER_LENGTH := 9
  const PRIORITY_LENGTH := 5
  const MAX_PAYLOAD := 16384

  datatype Hd = Hd(length: nat, kind: byte, flags: byte, streamId: nat)

  datatype PriSpec = PriSpec(streamId: nat, weight: int, exclusive: bool)

  predicate Packable(hd: Hd) { hd.length < 0x100_0000 && hd.streamId < 0x8000_0000 }

  /** nghttp2_put_uint32be. */
  function Put32(v: nat): Bytes
    requires v < 0x1_0000_0000
  {
    [v / 0x100_0000, v / 0x1_0000 % 256, v / 0x100 % 256, v % 256]
  }

  /** nghttp2_get_uint32. */
  function Get32(b: Bytes): nat
    requires |b| >= 4
  {
    var w, x, y: int := b[0], b[1], b[2];
    w * 0x100_0000 + x * 0x1_0000 + y * 0x100 + b[3]
  }

  lemma Word(v: nat)
    requires v < 0x1_0000_0000
    ensures |Put32(v)| == 4 && Get32(Put32(v)) == v
  {
    var a, b, c := v / 0x100, v / 0x1_0000, v / 0x100_0000;
    assert v == a * 0x100 + v % 256;
    assert a / 256 == b && a == b * 256 + a % 256;
    assert b / 256 == c && b == c * 256 + b % 256;
  }

  /** nghttp2_frame_pack_frame_hd: the length is shifted up and its low octet overwritten by the type. */
  function PackHd(hd: Hd): Bytes
    requires Packable(hd)
  {
    Put32(hd.length * 256)[..3] + [hd.kind, hd.flags] + Put32(hd.streamId)
  }

  function UnpackHd(b: Bytes): Hd
    requires |b| >= HEADER_LENGTH
  {
    Hd(Get32(b) / 256, b[3], b[4], Get32(b[5..]) % 0x8000_0000)
  }

  lemma HdRoundTrip(hd: Hd)
    requires Packable(hd)
    ensures |PackHd(hd)| == HEADER_LENGTH && UnpackHd(PackHd(hd)) == hd
  {
    var p := PackHd(hd);
    var w := Put32(hd.length * 256);
    Word(hd.length * 256);
    Word(hd.streamId);
    assert p[0] == w[0] && p[1] == w[1] && p[2] == w[2] && w[3] == 0;
    assert Get32(p) == hd.length * 256 + hd.kind;
    assert p[5..] == Put32(hd.streamId);
  }

  /**
   * The layout on the wire, for every nine octets: three of length with the most significant first, the type, the
   * flags, and a stream whose topmost bit is ignored; packing gives the octets back but for that bit.
   */
  lemma HdLayout(b: Bytes)
    requires |b| == HEADER_LENGTH
    ensures var hd := UnpackHd(b);
            && hd.length == BigEndian(b[..3]) && hd.kind == b[3] && hd.flags == b[4] && Packable(hd)
            && hd.streamId == BigEndian([b[5] % 0x80] + b[6..])
            && PackHd(hd) == b[5 := b[5] % 0x80]
  {
    hide BigEndian, Put32, Get32;
    var hd := UnpackHd(b);
    Word3(b);
    var c := [b[5] % 0x80] + b[6..];
    IdOctets(b[5..], c);
    GetPut(c);
    assert PackHd(hd) == b[..3] + [b[3], b[4]] + c;
  }

  /** The number that octets spell, the most significant first. */
  function BigEndian(b: Bytes): nat
  {
    if b == [] then 0 else BigEndian(b[..|b| - 1]) * 256 + b[|b| - 1]
  }

  lemma Big3(b: Bytes)
    requires |b| == 3
    ensures BigEndian(b) == (b[0] as int) * 0x1_0000 + (b[1] as int) * 0x100 + b[2]
  {
    assert b[..2][..1] == [b[0]] && [b[0]][..0] == [];
    assert BigEndian([b[0]]) == b[0];
    assert BigEndian(b[..2]) == (b[0] as int) * 256 + b[1];
  }

  lemma Big4(b: Bytes)
    requires |b| == 4
    ensures BigEndian(b) == Get32(b)
  {
    Big3(b[..3]);
  }

  lemma GetPut(b: Bytes)
    requires |b| == 4
    ensures Get32(b) < 0x1_0000_0000 && Put32(Get32(b)) == b && BigEndian(b) == Get32(b)
  {
    Big4(b);
    var w: int, x: int, y: int := b[0], b[1], b[2];
    LastOctet(w * 256 + x, b[2]);
    LastOctet(w, b[1]);
    LastOctet((w * 256 + x) * 256 + y, b[3]);
    Shifts(Get32(b));
  }

  lemma LastOctet(a: int, z: byte)
    ensures (a * 256 + z) / 256 == a && (a * 256 + z) % 256 == z
  {
  }

  lemma Shifts(v: nat)
    ensures v / 0x1_0000 == v / 0x100 / 256 && v / 0x100_0000 == v / 0x100 / 256 / 256
  {
  }

  lemma Word3(b: Bytes)
    requires |b| >= 4
    ensures BigEndian(b[..3]) == Get32(b) / 256 < 0x100_0000 && Put32(Get32(b) / 256 * 256)[..3] == b[..3]
  {
    Big3(b[..3]);
    var c := b[..3] + [0];
    GetPut(c);
    var w: int, x: int, y: int := b[0], b[1], b[2];
    LastOctet(w * 0x1_0000 + x * 0x100 + y, b[3]);
  }

  lemma IdOctets(b: Bytes, c: Bytes)
    requires |b| == |c| == 4 && c[0] == b[0] % 0x80 && c[1..] == b[1..]
    ensures Get32(b) % 0x8000_0000 == Get32(c)
  {
    assert c[1] == b[1] && c[2] == b[2] && c[3] == b[3];
    var top: int := b[0] / 0x80;
    assert Get32(b) == Get32(c) + top * 0x8000_0000;
  }

  predicate Bit(flags: byte, bit: byte)
    requires bit > 0
  {
    flags / bit % 2 == 1
  }

  function SetEndHeaders(flags: byte): byte { if Bit(flags, END_HEADERS) then flags else flags + END_HEADERS }

  function ClearEndHeaders(flags: byte): byte { if Bit(flags, END_HEADERS) then flags - END_HEADERS else flags }

  lemma FlagBits(flags: byte)
    ensures Bit(SetEndHeaders(flags), END_HEADERS) && !Bit(ClearEndHeaders(flags), END_HEADERS)
    ensures Bit(SetEndHeaders(flags), PRIORITY) == Bit(flags, PRIORITY) == Bit(ClearEndHeaders(flags), PRIORITY)
    ensures Bit(flags, END_HEADERS) ==> SetEndHeaders(ClearEndHeaders(flags)) == flags
  {
  }

  function SetPadded(flags: byte): byte { if Bit(flags, PADDED) then flags else flags + PADDED }

  /** The flags a receiver of HEADERS looks at. */
  function Masked(flags: byte): byte
  {
    (if Bit(flags, END_STREAM) then END_STREAM else 0) + (if Bit(flags, END_HEADERS) then END_HEADERS else 0)
    + (if Bit(flags, PADDED) then PADDED else 0) + (if Bit(flags, PRIORITY) then PRIORITY else 0)
  }

  predicate IsBit(b: byte) { b == 1 || b == 2 || b == 4 || b == 8 || b == 16 || b == 32 || b == 64 || b == 128 }

  /** Setting and clearing a flag changes that bit and no other; the receiver keeps the four bits it looks at. */
  lemma FlagsExact(flags: byte, bit: byte)
    requires IsBit(bit)
    ensures Bit(SetEndHeaders(flags), bit) <==> bit == END_HEADERS || Bit(flags, bit)
    ensures Bit(ClearEndHeaders(flags), bit) <==> bit != END_HEADERS && Bit(flags, bit)
    ensures Bit(SetPadded(flags), bit) <==> bit == PADDED || Bit(flags, bit)
    ensures Bit(Masked(flags), bit) <==>
            (bit == END_STREAM || bit == END_HEADERS || bit == PADDED || bit == PRIORITY) && Bit(flags, bit)
  {
    SetExact(flags, bit);
    PadExact(flags, bit);
    MaskExact(flags, bit);
  }

  /** Octets that agree above the lowest `k` bits, or in them, agree on each of those bits. */
  lemma SameHigh(f: byte, g: byte, bit: byte)
    requires IsBit(bit)
    ensures f / 8 == g / 8 && bit >= 8 ==> Bit(f, bit) == Bit(g, bit)
    ensures f / 16 == g / 16 && bit >= 16 ==> Bit(f, bit) == Bit(g, bit)
  {
    if bit == 16 {
      assert f / 16 == f / 8 / 2 && g / 16 == g / 8 / 2;
    } else if bit == 32 {
      assert f / 32 == f / 8 / 4 == f / 16 / 2 && g / 32 == g / 8 / 4 == g / 16 / 2;
    } else if bit == 64 {
      assert f / 64 == f / 8 / 8 == f / 16 / 4 && g / 64 == g / 8 / 8 == g / 16 / 4;
    } else if bit == 128 {
      assert f / 128 == f / 8 / 16 == f / 16 / 8 && g / 128 == g / 8 / 16 == g / 16 / 8;
    }
  }

  lemma SameLow(f: byte, g: byte, bit: byte)
    requires IsBit(bit)
    ensures f % 4 == g % 4 && bit < 4 ==> Bit(f, bit) == Bit(g, bit)
    ensures f % 8 == g % 8 && bit < 8 ==> Bit(f, bit) == Bit(g, bit)
  {
    Quarter(f);
    Quarter(g);
    Eighth(f);
    Eighth(g);
  }

  lemma Quarter(f: byte)
    ensures f % 2 == f % 4 % 2 && f / 2 % 2 == f % 4 / 2
  {
    var a, r := f / 4, f % 4;
    assert f == 4 * a + r && f / 2 == 2 * a + r / 2;
  }

  lemma Eighth(f: byte)
    ensures f % 2 == f % 8 % 2 && f / 2 % 2 == f % 8 / 2 % 2 && f / 4 % 2 == f % 8 / 4
  {
    var a, r := f / 8, f % 8;
    assert f == 8 * a + r && f / 2 == 4 * a + r / 2 && f / 4 == 2 * a + r / 4;
  }

  lemma SetExact(flags: byte, bit: byte)
    requires IsBit(bit)
    ensures Bit(SetEndHeaders(flags), bit) <==> bit == END_HEADERS || Bit(flags, bit)
    ensures Bit(ClearEndHeaders(flags), bit) <==> bit != END_HEADERS && Bit(flags, bit)
  {
    AddFour(flags);
    hide Bit;
    SameHigh(flags, SetEndHeaders(flags), bit);
    SameLow(flags, SetEndHeaders(flags), bit);
    SameHigh(flags, ClearEndHeaders(flags), bit);
    SameLow(flags, ClearEndHeaders(flags), bit);
  }

  lemma AddFour(flags: byte)
    ensures SetEndHeaders(flags) / 8 == flags / 8 == ClearEndHeaders(flags) / 8
    ensures SetEndHeaders(flags) % 4 == flags % 4 == ClearEndHeaders(flags) % 4
    ensures Bit(SetEndHeaders(flags), END_HEADERS) && !Bit(ClearEndHeaders(flags), END_HEADERS)
  {
  }

  lemma PadExact(flags: byte, bit: byte)
    requires IsBit(bit)
    ensures Bit(SetPadded(flags), bit) <==> bit == PADDED || Bit(flags, bit)
  {
    AddEight(flags);
    hide Bit;
    SameHigh(flags, SetPadded(flags), bit);
    SameLow(flags, SetPadded(flags), bit);
  }

  lemma AddEight(flags: byte)
    ensures SetPadded(flags) / 16 == flags / 16 && SetPadded(flags) % 8 == flags % 8 && Bit(SetPadded(flags), PADDED)
  {
    var a, b, c := flags / 16, flags / 8 % 2, flags % 8;
    assert flags == 16 * a + 8 * b + c;
  }

  lemma MaskExact(flags: byte, bit: byte)
    requires IsBit(bit)
    ensures Bit(Masked(flags), bit) <==>
            (bit == END_STREAM || bit == END_HEADERS || bit == PADDED || bit == PRIORITY) && Bit(flags, bit)
  {
    if bit == 1 {} else if bit == 2 {} else if bit == 4 {} else if bit == 8 {}
    else if bit == 16 {} else if bit == 32 {} else if bit == 64 {} else {}
  }

  lemma MaskBits(flags: byte)
    ensures Bit(Masked(flags), END_STREAM) == Bit(flags, END_STREAM)
    ensures Bit(Masked(flags), END_HEADERS) == Bit(flags, END_HEADERS)
    ensures Bit(Masked(flags), PADDED) == Bit(flags, PADDED)
    ensures Bit(Masked(flags), PRIORITY) == Bit(flags, PRIORITY)
  {
  }

  lemma MaskSetClear(flags: byte)
    ensures Bit(ClearEndHeaders(flags), PADDED) == Bit(flags, PADDED)
    ensures Bit(flags, END_HEADERS) ==> SetEndHeaders(Masked(ClearEndHeaders(flags))) == Masked(flags)
  {
    ClearBits(flags);
  }

  lemma ClearBits(flags: byte)
    ensures Bit(ClearEndHeaders(flags), END_STREAM) == Bit(flags, END_STREAM)
    ensures Bit(ClearEndHeaders(flags), PADDED) == Bit(flags, PADDED)
    ensures Bit(ClearEndHeaders(flags), PRIORITY) == Bit(flags, PRIORITY)
    ensures !Bit(ClearEndHeaders(flags), END_HEADERS)
  {
  }

  lemma PaddedBits(flags: byte)
    ensures Bit(SetPadded(flags), PADDED)
    ensures Bit(SetPadded(flags), END_HEADERS) == Bit(flags, END_HEADERS)
    ensures Bit(SetPadded(flags), PRIORITY) == Bit(flags, PRIORITY)
  {
    hide Bit;
    PadExact(flags, PADDED);
    PadExact(flags, END_HEADERS);
    PadExact(flags, PRIORITY);
  }

  lemma PaddedMask(flags: byte)
    requires Masked(flags) == flags
    ensures Masked(SetPadded(flags)) == SetPadded(flags)
  {
    PaddedBits(flags);
    PaddedEnd(flags);
    hide Bit;
  }

  lemma PaddedEnd(flags: byte)
    ensures Bit(SetPadded(flags), END_STREAM) == Bit(flags, END_STREAM)
  {
  }

  lemma PaddedClear(flags: byte)
    ensures SetPadded(ClearEndHeaders(flags)) == ClearEndHeaders(SetPadded(flags))
  {
    PaddedBits(flags);
    ClearBits(flags);
    hide Bit;
  }

  predicate ValidPri(p: PriSpec) { p.streamId < 0x8000_0000 && 1 <= p.weight <= 256 }

  /** nghttp2_frame_pack_priority_spec. */
  function PackPri(p: PriSpec): Bytes
    requires ValidPri(p)
  {
    Put32(p.streamId + if p.exclusive then 0x8000_0000 else 0) + [p.weight - 1]
  }

  function UnpackPri(b: Bytes): PriSpec
    requires |b| >= PRIORITY_LENGTH
  {
    PriSpec(Get32(b) % 0x8000_0000, (b[4] as int) + 1, b[0] / 0x80 == 1)
  }

  /** The layout on the wire, for every five octets: the exclusive flag, a stream, and the weight less one. */
  lemma PriLayout(b: Bytes)
    requires |b| == PRIORITY_LENGTH
    ensures var p := UnpackPri(b);
            && ValidPri(p) && (p.exclusive <==> b[0] >= 0x80) && p.weight == (b[4] as int) + 1
            && p.streamId == BigEndian([b[0] % 0x80] + b[1..4]) && PackPri(p) == b
  {
    hide BigEndian, Put32, Get32;
    var w, c := b[..4], [b[0] % 0x80] + b[1..4];
    GetPrefix(b, w);
    IdOctets(w, c);
    GetPut(w);
    GetPut(c);
    TopBit(Get32(w));
    assert b == w + [b[4]];
  }

  lemma TopBit(v: nat)
    requires v < 0x1_0000_0000
    ensures Put32(v)[0] / 0x80 == v / 0x8000_0000
  {
    assert v / 0x100_0000 / 0x80 == v / 0x8000_0000;
  }

  lemma PriRoundTrip(p: PriSpec)
    requires ValidPri(p)
    ensures |PackPri(p)| == PRIORITY_LENGTH && UnpackPri(PackPri(p)) == p
  {
    var v := p.streamId + if p.exclusive then 0x8000_0000 else 0;
    Word(v);
    TopBit(v);
    var b := PackPri(p);
    hide Put32;
    GetPrefix(b, Put32(v));
    assert b[0] == Put32(v)[0];
  }

  lemma GetPrefix(b: Bytes, w: Bytes)
    requires |w| == 4 && |b| >= 4 && b[..4] == w
    ensures Get32(b) == Get32(w)
  {
    assert b[0] == w[0] && b[1] == w[1] && b[2] == w[2] && b[3] == w[3];
  }
}
