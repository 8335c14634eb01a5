/**
 * The Huffman code of appendix B of RFC 7541: huff_sym_table of lib/nghttp2_hd_huffman_data.c, and the
 * leaves of its code tree.  The code is canonical, so one number per length, Limit, tells leaves from
 * internal nodes: the n-bit prefix v is below Limit(n) exactly when a codeword ends at or before it.
 */
module HuffmanTable {

  /** A codeword: `nbits` bits, the value `code` aligned to the least significant bit. */
  datatype HuffSym = HuffSym(nbits: nat, code: nat)

  const EOS := 256

  function Symbols0(s: nat): HuffSym
  {
    match s
    case 0 => HuffSym(13, 0x1ff8) case 1 => HuffSym(23, 0x7fffd8) case 2 => HuffSym(28, 0xfffffe2)
    case 3 => HuffSym(28, 0xfffffe3)
    case 4 => HuffSym(28, 0xfffffe4) case 5 => HuffSym(28, 0xfffffe5) case 6 => HuffSym(28, 0xfffffe6)
    case 7 => HuffSym(28, 0xfffffe7)
    case 8 => HuffSym(28, 0xfffffe8) case 9 => HuffSym(24, 0xffffea) case 10 => HuffSym(30, 0x3ffffffc)
    case 11 => HuffSym(28, 0xfffffe9)
    case 12 => HuffSym(28, 0xfffffea) case 13 => HuffSym(30, 0x3ffffffd) case 14 => HuffSym(28, 0xfffffeb)
    case 15 => HuffSym(28, 0xfffffec)
    case 16 => HuffSym(28, 0xfffffed) case 17 => HuffSym(28, 0xfffffee) case 18 => HuffSym(28, 0xfffffef)
    case 19 => HuffSym(28, 0xffffff0)
    case 20 => HuffSym(28, 0xffffff1) case 21 => HuffSym(28, 0xffffff2) case 22 => HuffSym(30, 0x3ffffffe)
    case 23 => HuffSym(28, 0xffffff3)
    case 24 => HuffSym(28, 0xffffff4) case 25 => HuffSym(28, 0xffffff5) case 26 => HuffSym(28, 0xffffff6)
    case 27 => HuffSym(28, 0xffffff7)
    case 28 => HuffSym(28, 0xffffff8) case 29 => HuffSym(28, 0xffffff9) case 30 => HuffSym(28, 0xffffffa)
    case _ => HuffSym(28, 0xffffffb)
  }

  function Symbols1(s: nat): HuffSym
  {
    match s
    case 32 => HuffSym(6, 0x14) case 33 => HuffSym(10, 0x3f8) case 34 => HuffSym(10, 0x3f9)
    case 35 => HuffSym(12, 0xffa)
    case 36 => HuffSym(13, 0x1ff9) case 37 => HuffSym(6, 0x15) case 38 => HuffSym(8, 0xf8) case 39 => HuffSym(11, 0x7fa)
    case 40 => HuffSym(10, 0x3fa) case 41 => HuffSym(10, 0x3fb) case 42 => HuffSym(8, 0xf9)
    case 43 => HuffSym(11, 0x7fb)
    case 44 => HuffSym(8, 0xfa) case 45 => HuffSym(6, 0x16) case 46 => HuffSym(6, 0x17) case 47 => HuffSym(6, 0x18)
    case 48 => HuffSym(5, 0x0) case 49 => HuffSym(5, 0x1) case 50 => HuffSym(5, 0x2) case 51 => HuffSym(6, 0x19)
    case 52 => HuffSym(6, 0x1a) case 53 => HuffSym(6, 0x1b) case 54 => HuffSym(6, 0x1c) case 55 => HuffSym(6, 0x1d)
    case 56 => HuffSym(6, 0x1e) case 57 => HuffSym(6, 0x1f) case 58 => HuffSym(7, 0x5c) case 59 => HuffSym(8, 0xfb)
    case 60 => HuffSym(15, 0x7ffc) case 61 => HuffSym(6, 0x20) case 62 => HuffSym(12, 0xffb)
    case _ => HuffSym(10, 0x3fc)
  }

  function Symbols2(s: nat): HuffSym
  {
    match s
    case 64 => HuffSym(13, 0x1ffa) case 65 => HuffSym(6, 0x21) case 66 => HuffSym(7, 0x5d) case 67 => HuffSym(7, 0x5e)
    case 68 => HuffSym(7, 0x5f) case 69 => HuffSym(7, 0x60) case 70 => HuffSym(7, 0x61) case 71 => HuffSym(7, 0x62)
    case 72 => HuffSym(7, 0x63) case 73 => HuffSym(7, 0x64) case 74 => HuffSym(7, 0x65) case 75 => HuffSym(7, 0x66)
    case 76 => HuffSym(7, 0x67) case 77 => HuffSym(7, 0x68) case 78 => HuffSym(7, 0x69) case 79 => HuffSym(7, 0x6a)
    case 80 => HuffSym(7, 0x6b) case 81 => HuffSym(7, 0x6c) case 82 => HuffSym(7, 0x6d) case 83 => HuffSym(7, 0x6e)
    case 84 => HuffSym(7, 0x6f) case 85 => HuffSym(7, 0x70) case 86 => HuffSym(7, 0x71) case 87 => HuffSym(7, 0x72)
    case 88 => HuffSym(8, 0xfc) case 89 => HuffSym(7, 0x73) case 90 => HuffSym(8, 0xfd) case 91 => HuffSym(13, 0x1ffb)
    case 92 => HuffSym(19, 0x7fff0) case 93 => HuffSym(13, 0x1ffc) case 94 => HuffSym(14, 0x3ffc)
    case _ => HuffSym(6, 0x22)
  }

  function Symbols3(s: nat): HuffSym
  {
    match s
    case 96 => HuffSym(15, 0x7ffd) case 97 => HuffSym(5, 0x3) case 98 => HuffSym(6, 0x23) case 99 => HuffSym(5, 0x4)
    case 100 => HuffSym(6, 0x24) case 101 => HuffSym(5, 0x5) case 102 => HuffSym(6, 0x25) case 103 => HuffSym(6, 0x26)
    case 104 => HuffSym(6, 0x27) case 105 => HuffSym(5, 0x6) case 106 => HuffSym(7, 0x74) case 107 => HuffSym(7, 0x75)
    case 108 => HuffSym(6, 0x28) case 109 => HuffSym(6, 0x29) case 110 => HuffSym(6, 0x2a) case 111 => HuffSym(5, 0x7)
    case 112 => HuffSym(6, 0x2b) case 113 => HuffSym(7, 0x76) case 114 => HuffSym(6, 0x2c) case 115 => HuffSym(5, 0x8)
    case 116 => HuffSym(5, 0x9) case 117 => HuffSym(6, 0x2d) case 118 => HuffSym(7, 0x77) case 119 => HuffSym(7, 0x78)
    case 120 => HuffSym(7, 0x79) case 121 => HuffSym(7, 0x7a) case 122 => HuffSym(7, 0x7b)
    case 123 => HuffSym(15, 0x7ffe)
    case 124 => HuffSym(11, 0x7fc) case 125 => HuffSym(14, 0x3ffd) case 126 => HuffSym(13, 0x1ffd)
    case _ => HuffSym(28, 0xffffffc)
  }

  function Symbols4(s: nat): HuffSym
  {
    match s
    case 128 => HuffSym(20, 0xfffe6) case 129 => HuffSym(22, 0x3fffd2) case 130 => HuffSym(20, 0xfffe7)
    case 131 => HuffSym(20, 0xfffe8)
    case 132 => HuffSym(22, 0x3fffd3) case 133 => HuffSym(22, 0x3fffd4) case 134 => HuffSym(22, 0x3fffd5)
    case 135 => HuffSym(23, 0x7fffd9)
    case 136 => HuffSym(22, 0x3fffd6) case 137 => HuffSym(23, 0x7fffda) case 138 => HuffSym(23, 0x7fffdb)
    case 139 => HuffSym(23, 0x7fffdc)
    case 140 => HuffSym(23, 0x7fffdd) case 141 => HuffSym(23, 0x7fffde) case 142 => HuffSym(24, 0xffffeb)
    case 143 => HuffSym(23, 0x7fffdf)
    case 144 => HuffSym(24, 0xffffec) case 145 => HuffSym(24, 0xffffed) case 146 => HuffSym(22, 0x3fffd7)
    case 147 => HuffSym(23, 0x7fffe0)
    case 148 => HuffSym(24, 0xffffee) case 149 => HuffSym(23, 0x7fffe1) case 150 => HuffSym(23, 0x7fffe2)
    case 151 => HuffSym(23, 0x7fffe3)
    case 152 => HuffSym(23, 0x7fffe4) case 153 => HuffSym(21, 0x1fffdc) case 154 => HuffSym(22, 0x3fffd8)
    case 155 => HuffSym(23, 0x7fffe5)
    case 156 => HuffSym(22, 0x3fffd9) case 157 => HuffSym(23, 0x7fffe6) case 158 => HuffSym(23, 0x7fffe7)
    case _ => HuffSym(24, 0xffffef)
  }

  function Symbols5(s: nat): HuffSym
  {
    match s
    case 160 => HuffSym(22, 0x3fffda) case 161 => HuffSym(21, 0x1fffdd) case 162 => HuffSym(20, 0xfffe9)
    case 163 => HuffSym(22, 0x3fffdb)
    case 164 => HuffSym(22, 0x3fffdc) case 165 => HuffSym(23, 0x7fffe8) case 166 => HuffSym(23, 0x7fffe9)
    case 167 => HuffSym(21, 0x1fffde)
    case 168 => HuffSym(23, 0x7fffea) case 169 => HuffSym(22, 0x3fffdd) case 170 => HuffSym(22, 0x3fffde)
    case 171 => HuffSym(24, 0xfffff0)
    case 172 => HuffSym(21, 0x1fffdf) case 173 => HuffSym(22, 0x3fffdf) case 174 => HuffSym(23, 0x7fffeb)
    case 175 => HuffSym(23, 0x7fffec)
    case 176 => HuffSym(21, 0x1fffe0) case 177 => HuffSym(21, 0x1fffe1) case 178 => HuffSym(22, 0x3fffe0)
    case 179 => HuffSym(21, 0x1fffe2)
    case 180 => HuffSym(23, 0x7fffed) case 181 => HuffSym(22, 0x3fffe1) case 182 => HuffSym(23, 0x7fffee)
    case 183 => HuffSym(23, 0x7fffef)
    case 184 => HuffSym(20, 0xfffea) case 185 => HuffSym(22, 0x3fffe2) case 186 => HuffSym(22, 0x3fffe3)
    case 187 => HuffSym(22, 0x3fffe4)
    case 188 => HuffSym(23, 0x7ffff0) case 189 => HuffSym(22, 0x3fffe5) case 190 => HuffSym(22, 0x3fffe6)
    case _ => HuffSym(23, 0x7ffff1)
  }

  function Symbols6(s: nat): HuffSym
  {
    match s
    case 192 => HuffSym(26, 0x3ffffe0) case 193 => HuffSym(26, 0x3ffffe1) case 194 => HuffSym(20, 0xfffeb)
    case 195 => HuffSym(19, 0x7fff1)
    case 196 => HuffSym(22, 0x3fffe7) case 197 => HuffSym(23, 0x7ffff2) case 198 => HuffSym(22, 0x3fffe8)
    case 199 => HuffSym(25, 0x1ffffec)
    case 200 => HuffSym(26, 0x3ffffe2) case 201 => HuffSym(26, 0x3ffffe3) case 202 => HuffSym(26, 0x3ffffe4)
    case 203 => HuffSym(27, 0x7ffffde)
    case 204 => HuffSym(27, 0x7ffffdf) case 205 => HuffSym(26, 0x3ffffe5) case 206 => HuffSym(24, 0xfffff1)
    case 207 => HuffSym(25, 0x1ffffed)
    case 208 => HuffSym(19, 0x7fff2) case 209 => HuffSym(21, 0x1fffe3) case 210 => HuffSym(26, 0x3ffffe6)
    case 211 => HuffSym(27, 0x7ffffe0)
    case 212 => HuffSym(27, 0x7ffffe1) case 213 => HuffSym(26, 0x3ffffe7) case 214 => HuffSym(27, 0x7ffffe2)
    case 215 => HuffSym(24, 0xfffff2)
    case 216 => HuffSym(21, 0x1fffe4) case 217 => HuffSym(21, 0x1fffe5) case 218 => HuffSym(26, 0x3ffffe8)
    case 219 => HuffSym(26, 0x3ffffe9)
    case 220 => HuffSym(28, 0xffffffd) case 221 => HuffSym(27, 0x7ffffe3) case 222 => HuffSym(27, 0x7ffffe4)
    case _ => HuffSym(27, 0x7ffffe5)
  }

  function Symbols7(s: nat): HuffSym
  {
    match s
    case 224 => HuffSym(20, 0xfffec) case 225 => HuffSym(24, 0xfffff3) case 226 => HuffSym(20, 0xfffed)
    case 227 => HuffSym(21, 0x1fffe6)
    case 228 => HuffSym(22, 0x3fffe9) case 229 => HuffSym(21, 0x1fffe7) case 230 => HuffSym(21, 0x1fffe8)
    case 231 => HuffSym(23, 0x7ffff3)
    case 232 => HuffSym(22, 0x3fffea) case 233 => HuffSym(22, 0x3fffeb) case 234 => HuffSym(25, 0x1ffffee)
    case 235 => HuffSym(25, 0x1ffffef)
    case 236 => HuffSym(24, 0xfffff4) case 237 => HuffSym(24, 0xfffff5) case 238 => HuffSym(26, 0x3ffffea)
    case 239 => HuffSym(23, 0x7ffff4)
    case 240 => HuffSym(26, 0x3ffffeb) case 241 => HuffSym(27, 0x7ffffe6) case 242 => HuffSym(26, 0x3ffffec)
    case 243 => HuffSym(26, 0x3ffffed)
    case 244 => HuffSym(27, 0x7ffffe7) case 245 => HuffSym(27, 0x7ffffe8) case 246 => HuffSym(27, 0x7ffffe9)
    case 247 => HuffSym(27, 0x7ffffea)
    case 248 => HuffSym(27, 0x7ffffeb) case 249 => HuffSym(28, 0xffffffe) case 250 => HuffSym(27, 0x7ffffec)
    case 251 => HuffSym(27, 0x7ffffed)
    case 252 => HuffSym(27, 0x7ffffee) case 253 => HuffSym(27, 0x7ffffef) case 254 => HuffSym(27, 0x7fffff0)
    case _ => HuffSym(26, 0x3ffffee)
  }

  function Symbols8(s: nat): HuffSym
  {
    match s
    case _ => HuffSym(30, 0x3fffffff)
  }

  /** huff_sym_table[s]. */
  function Symbol(s: nat): HuffSym
    requires s <= EOS
  {
    if s < 32 then Symbols0(s)
    else if s < 64 then Symbols1(s)
    else if s < 96 then Symbols2(s)
    else if s < 128 then Symbols3(s)
    else if s < 160 then Symbols4(s)
    else if s < 192 then Symbols5(s)
    else if s < 224 then Symbols6(s)
    else if s < 256 then Symbols7(s)
    else Symbols8(s)
  }

  /** The number of n-bit prefixes that lie on or below a codeword of at most n bits. */
  function Limit(n: nat): nat
    requires n <= 30
  {
    match n
    case 0 => 0x0 case 1 => 0x0 case 2 => 0x0 case 3 => 0x0 case 4 => 0x0 case 5 => 0xa
    case 6 => 0x2e case 7 => 0x7c case 8 => 0xfe case 9 => 0x1fc case 10 => 0x3fd case 11 => 0x7fd
    case 12 => 0xffc case 13 => 0x1ffe case 14 => 0x3ffe case 15 => 0x7fff case 16 => 0xfffe case 17 => 0x1fffc
    case 18 => 0x3fff8 case 19 => 0x7fff3 case 20 => 0xfffee case 21 => 0x1fffe9 case 22 => 0x3fffec case 23 => 0x7ffff5
    case 24 => 0xfffff6 case 25 => 0x1fffff0 case 26 => 0x3ffffef case 27 => 0x7fffff1 case 28 => 0xfffffff
    case 29 => 0x1ffffffe
    case _ => 0x40000000
  }

  function Leaves5(v: nat): (s: nat)
    ensures s <= EOS
  {
    match v
    case 0x0 => 48 case 0x1 => 49 case 0x2 => 50 case 0x3 => 97 case 0x4 => 99 case 0x5 => 101
    case 0x6 => 105 case 0x7 => 111 case 0x8 => 115 case _ => 116
  }

  function Leaves6(v: nat): (s: nat)
    ensures s <= EOS
  {
    match v
    case 0x14 => 32 case 0x15 => 37 case 0x16 => 45 case 0x17 => 46 case 0x18 => 47 case 0x19 => 51
    case 0x1a => 52 case 0x1b => 53 case 0x1c => 54 case 0x1d => 55 case 0x1e => 56 case 0x1f => 57
    case 0x20 => 61 case 0x21 => 65 case 0x22 => 95 case 0x23 => 98 case 0x24 => 100 case 0x25 => 102
    case 0x26 => 103 case 0x27 => 104 case 0x28 => 108 case 0x29 => 109 case 0x2a => 110 case 0x2b => 112
    case 0x2c => 114 case _ => 117
  }

  function Leaves7(v: nat): (s: nat)
    ensures s <= EOS
  {
    match v
    case 0x5c => 58 case 0x5d => 66 case 0x5e => 67 case 0x5f => 68 case 0x60 => 69 case 0x61 => 70
    case 0x62 => 71 case 0x63 => 72 case 0x64 => 73 case 0x65 => 74 case 0x66 => 75 case 0x67 => 76
    case 0x68 => 77 case 0x69 => 78 case 0x6a => 79 case 0x6b => 80 case 0x6c => 81 case 0x6d => 82
    case 0x6e => 83 case 0x6f => 84 case 0x70 => 85 case 0x71 => 86 case 0x72 => 87 case 0x73 => 89
    case 0x74 => 106 case 0x75 => 107 case 0x76 => 113 case 0x77 => 118 case 0x78 => 119 case 0x79 => 120
    case 0x7a => 121 case _ => 122
  }

  function Leaves8(v: nat): (s: nat)
    ensures s <= EOS
  {
    match v
    case 0xf8 => 38 case 0xf9 => 42 case 0xfa => 44 case 0xfb => 59 case 0xfc => 88 case _ => 90
  }

  function Leaves10(v: nat): (s: nat)
    ensures s <= EOS
  {
    match v
    case 0x3f8 => 33 case 0x3f9 => 34 case 0x3fa => 40 case 0x3fb => 41 case _ => 63
  }

  function Leaves11(v: nat): (s: nat)
    ensures s <= EOS
  {
    match v
    case 0x7fa => 39 case 0x7fb => 43 case _ => 124
  }

  function Leaves12(v: nat): (s: nat)
    ensures s <= EOS
  {
    match v
    case 0xffa => 35 case _ => 62
  }

  function Leaves13(v: nat): (s: nat)
    ensures s <= EOS
  {
    match v
    case 0x1ff8 => 0 case 0x1ff9 => 36 case 0x1ffa => 64 case 0x1ffb => 91 case 0x1ffc => 93 case _ => 126
  }

  function Leaves14(v: nat): (s: nat)
    ensures s <= EOS
  {
    match v
    case 0x3ffc => 94 case _ => 125
  }

  function Leaves15(v: nat): (s: nat)
    ensures s <= EOS
  {
    match v
    case 0x7ffc => 60 case 0x7ffd => 96 case _ => 123
  }

  function Leaves19(v: nat): (s: nat)
    ensures s <= EOS
  {
    match v
    case 0x7fff0 => 92 case 0x7fff1 => 195 case _ => 208
  }

  function Leaves20(v: nat): (s: nat)
    ensures s <= EOS
  {
    match v
    case 0xfffe6 => 128 case 0xfffe7 => 130 case 0xfffe8 => 131 case 0xfffe9 => 162 case 0xfffea => 184
    case 0xfffeb => 194
    case 0xfffec => 224 case _ => 226
  }

  function Leaves21(v: nat): (s: nat)
    ensures s <= EOS
  {
    match v
    case 0x1fffdc => 153 case 0x1fffdd => 161 case 0x1fffde => 167 case 0x1fffdf => 172 case 0x1fffe0 => 176
    case 0x1fffe1 => 177
    case 0x1fffe2 => 179 case 0x1fffe3 => 209 case 0x1fffe4 => 216 case 0x1fffe5 => 217 case 0x1fffe6 => 227
    case 0x1fffe7 => 229
    case _ => 230
  }

  function Leaves22(v: nat): (s: nat)
    ensures s <= EOS
  {
    match v
    case 0x3fffd2 => 129 case 0x3fffd3 => 132 case 0x3fffd4 => 133 case 0x3fffd5 => 134 case 0x3fffd6 => 136
    case 0x3fffd7 => 146
    case 0x3fffd8 => 154 case 0x3fffd9 => 156 case 0x3fffda => 160 case 0x3fffdb => 163 case 0x3fffdc => 164
    case 0x3fffdd => 169
    case 0x3fffde => 170 case 0x3fffdf => 173 case 0x3fffe0 => 178 case 0x3fffe1 => 181 case 0x3fffe2 => 185
    case 0x3fffe3 => 186
    case 0x3fffe4 => 187 case 0x3fffe5 => 189 case 0x3fffe6 => 190 case 0x3fffe7 => 196 case 0x3fffe8 => 198
    case 0x3fffe9 => 228
    case 0x3fffea => 232 case _ => 233
  }

  function Leaves23(v: nat): (s: nat)
    ensures s <= EOS
  {
    match v
    case 0x7fffd8 => 1 case 0x7fffd9 => 135 case 0x7fffda => 137 case 0x7fffdb => 138 case 0x7fffdc => 139
    case 0x7fffdd => 140
    case 0x7fffde => 141 case 0x7fffdf => 143 case 0x7fffe0 => 147 case 0x7fffe1 => 149 case 0x7fffe2 => 150
    case 0x7fffe3 => 151
    case 0x7fffe4 => 152 case 0x7fffe5 => 155 case 0x7fffe6 => 157 case 0x7fffe7 => 158 case 0x7fffe8 => 165
    case 0x7fffe9 => 166
    case 0x7fffea => 168 case 0x7fffeb => 174 case 0x7fffec => 175 case 0x7fffed => 180 case 0x7fffee => 182
    case 0x7fffef => 183
    case 0x7ffff0 => 188 case 0x7ffff1 => 191 case 0x7ffff2 => 197 case 0x7ffff3 => 231 case _ => 239
  }

  function Leaves24(v: nat): (s: nat)
    ensures s <= EOS
  {
    match v
    case 0xffffea => 9 case 0xffffeb => 142 case 0xffffec => 144 case 0xffffed => 145 case 0xffffee => 148
    case 0xffffef => 159
    case 0xfffff0 => 171 case 0xfffff1 => 206 case 0xfffff2 => 215 case 0xfffff3 => 225 case 0xfffff4 => 236
    case _ => 237
  }

  function Leaves25(v: nat): (s: nat)
    ensures s <= EOS
  {
    match v
    case 0x1ffffec => 199 case 0x1ffffed => 207 case 0x1ffffee => 234 case _ => 235
  }

  function Leaves26(v: nat): (s: nat)
    ensures s <= EOS
  {
    match v
    case 0x3ffffe0 => 192 case 0x3ffffe1 => 193 case 0x3ffffe2 => 200 case 0x3ffffe3 => 201 case 0x3ffffe4 => 202
    case 0x3ffffe5 => 205
    case 0x3ffffe6 => 210 case 0x3ffffe7 => 213 case 0x3ffffe8 => 218 case 0x3ffffe9 => 219 case 0x3ffffea => 238
    case 0x3ffffeb => 240
    case 0x3ffffec => 242 case 0x3ffffed => 243 case _ => 255
  }

  function Leaves27(v: nat): (s: nat)
    ensures s <= EOS
  {
    match v
    case 0x7ffffde => 203 case 0x7ffffdf => 204 case 0x7ffffe0 => 211 case 0x7ffffe1 => 212 case 0x7ffffe2 => 214
    case 0x7ffffe3 => 221
    case 0x7ffffe4 => 222 case 0x7ffffe5 => 223 case 0x7ffffe6 => 241 case 0x7ffffe7 => 244 case 0x7ffffe8 => 245
    case 0x7ffffe9 => 246
    case 0x7ffffea => 247 case 0x7ffffeb => 248 case 0x7ffffec => 250 case 0x7ffffed => 251 case 0x7ffffee => 252
    case 0x7ffffef => 253
    case _ => 254
  }

  function Leaves28(v: nat): (s: nat)
    ensures s <= EOS
  {
    match v
    case 0xfffffe2 => 2 case 0xfffffe3 => 3 case 0xfffffe4 => 4 case 0xfffffe5 => 5 case 0xfffffe6 => 6
    case 0xfffffe7 => 7
    case 0xfffffe8 => 8 case 0xfffffe9 => 11 case 0xfffffea => 12 case 0xfffffeb => 14 case 0xfffffec => 15
    case 0xfffffed => 16
    case 0xfffffee => 17 case 0xfffffef => 18 case 0xffffff0 => 19 case 0xffffff1 => 20 case 0xffffff2 => 21
    case 0xffffff3 => 23
    case 0xffffff4 => 24 case 0xffffff5 => 25 case 0xffffff6 => 26 case 0xffffff7 => 27 case 0xffffff8 => 28
    case 0xffffff9 => 29
    case 0xffffffa => 30 case 0xffffffb => 31 case 0xffffffc => 127 case 0xffffffd => 220 case _ => 249
  }

  function Leaves30(v: nat): (s: nat)
    ensures s <= EOS
  {
    match v
    case 0x3ffffffc => 10 case 0x3ffffffd => 13 case 0x3ffffffe => 22 case _ => 256
  }

  /** The symbol whose codeword is the n bits of v, when there is one. */
  function Leaf(n: nat, v: nat): (s: nat)
    ensures s <= EOS
  {
    match n
    case 5 => Leaves5(v) case 6 => Leaves6(v) case 7 => Leaves7(v) case 8 => Leaves8(v)
    case 10 => Leaves10(v) case 11 => Leaves11(v) case 12 => Leaves12(v) case 13 => Leaves13(v)
    case 14 => Leaves14(v) case 15 => Leaves15(v) case 19 => Leaves19(v) case 20 => Leaves20(v)
    case 21 => Leaves21(v) case 22 => Leaves22(v) case 23 => Leaves23(v) case 24 => Leaves24(v)
    case 25 => Leaves25(v) case 26 => Leaves26(v) case 27 => Leaves27(v) case 28 => Leaves28(v)
    case _ => Leaves30(v)
  }

  /** Symbol and Leaf are inverse, and codewords sit exactly between the limits. */
  predicate Canonical(s: nat)
    requires s <= EOS
  {
    var HuffSym(n, c) := Symbol(s);
    5 <= n <= 30 && 2 * Limit(n - 1) <= c < Limit(n) && Leaf(n, c) == s
  }

  lemma Canonical0(s: nat)
    requires 0 <= s < 8
    ensures Canonical(s)
  {
  }

  lemma Canonical1(s: nat)
    requires 8 <= s < 16
    ensures Canonical(s)
  {
  }

  lemma Canonical2(s: nat)
    requires 16 <= s < 24
    ensures Canonical(s)
  {
  }

  lemma Canonical3(s: nat)
    requires 24 <= s < 32
    ensures Canonical(s)
  {
  }

  lemma Canonical4(s: nat)
    requires 32 <= s < 40
    ensures Canonical(s)
  {
  }

  lemma Canonical5(s: nat)
    requires 40 <= s < 48
    ensures Canonical(s)
  {
  }

  lemma Canonical6(s: nat)
    requires 48 <= s < 56
    ensures Canonical(s)
  {
  }

  lemma Canonical7(s: nat)
    requires 56 <= s < 64
    ensures Canonical(s)
  {
  }

  lemma Canonical8(s: nat)
    requires 64 <= s < 72
    ensures Canonical(s)
  {
  }

  lemma Canonical9(s: nat)
    requires 72 <= s < 80
    ensures Canonical(s)
  {
  }

  lemma Canonical10(s: nat)
    requires 80 <= s < 88
    ensures Canonical(s)
  {
  }

  lemma Canonical11(s: nat)
    requires 88 <= s < 96
    ensures Canonical(s)
  {
  }

  lemma Canonical12(s: nat)
    requires 96 <= s < 104
    ensures Canonical(s)
  {
  }

  lemma Canonical13(s: nat)
    requires 104 <= s < 112
    ensures Canonical(s)
  {
  }

  lemma Canonical14(s: nat)
    requires 112 <= s < 120
    ensures Canonical(s)
  {
  }

  lemma Canonical15(s: nat)
    requires 120 <= s < 128
    ensures Canonical(s)
  {
  }

  lemma Canonical16(s: nat)
    requires 128 <= s < 136
    ensures Canonical(s)
  {
  }

  lemma Canonical17(s: nat)
    requires 136 <= s < 144
    ensures Canonical(s)
  {
  }

  lemma Canonical18(s: nat)
    requires 144 <= s < 152
    ensures Canonical(s)
  {
  }

  lemma Canonical19(s: nat)
    requires 152 <= s < 160
    ensures Canonical(s)
  {
  }

  lemma Canonical20(s: nat)
    requires 160 <= s < 168
    ensures Canonical(s)
  {
  }

  lemma Canonical21(s: nat)
    requires 168 <= s < 176
    ensures Canonical(s)
  {
  }

  lemma Canonical22(s: nat)
    requires 176 <= s < 184
    ensures Canonical(s)
  {
  }

  lemma Canonical23(s: nat)
    requires 184 <= s < 192
    ensures Canonical(s)
  {
  }

  lemma Canonical24(s: nat)
    requires 192 <= s < 200
    ensures Canonical(s)
  {
  }

  lemma Canonical25(s: nat)
    requires 200 <= s < 208
    ensures Canonical(s)
  {
  }

  lemma Canonical26(s: nat)
    requires 208 <= s < 216
    ensures Canonical(s)
  {
  }

  lemma Canonical27(s: nat)
    requires 216 <= s < 224
    ensures Canonical(s)
  {
  }

  lemma Canonical28(s: nat)
    requires 224 <= s < 232
    ensures Canonical(s)
  {
  }

  lemma Canonical29(s: nat)
    requires 232 <= s < 240
    ensures Canonical(s)
  {
  }

  lemma Canonical30(s: nat)
    requires 240 <= s < 248
    ensures Canonical(s)
  {
  }

  lemma Canonical31(s: nat)
    requires 248 <= s < 256
    ensures Canonical(s)
  {
  }

  lemma CanonicalEos()
    ensures Canonical(EOS)
  {
  }

  lemma CanonicalQuarter0(s: nat)
    requires 0 <= s < 64
    ensures Canonical(s)
  {
    hide Canonical;
    if s < 8 {
      Canonical0(s);
    } else if s < 16 {
      Canonical1(s);
    } else if s < 24 {
      Canonical2(s);
    } else if s < 32 {
      Canonical3(s);
    } else if s < 40 {
      Canonical4(s);
    } else if s < 48 {
      Canonical5(s);
    } else if s < 56 {
      Canonical6(s);
    } else {
      Canonical7(s);
    }
  }

  lemma CanonicalQuarter1(s: nat)
    requires 64 <= s < 128
    ensures Canonical(s)
  {
    hide Canonical;
    if s < 72 {
      Canonical8(s);
    } else if s < 80 {
      Canonical9(s);
    } else if s < 88 {
      Canonical10(s);
    } else if s < 96 {
      Canonical11(s);
    } else if s < 104 {
      Canonical12(s);
    } else if s < 112 {
      Canonical13(s);
    } else if s < 120 {
      Canonical14(s);
    } else {
      Canonical15(s);
    }
  }

  lemma CanonicalQuarter2(s: nat)
    requires 128 <= s < 192
    ensures Canonical(s)
  {
    hide Canonical;
    if s < 136 {
      Canonical16(s);
    } else if s < 144 {
      Canonical17(s);
    } else if s < 152 {
      Canonical18(s);
    } else if s < 160 {
      Canonical19(s);
    } else if s < 168 {
      Canonical20(s);
    } else if s < 176 {
      Canonical21(s);
    } else if s < 184 {
      Canonical22(s);
    } else {
      Canonical23(s);
    }
  }

  lemma CanonicalQuarter3(s: nat)
    requires 192 <= s < 256
    ensures Canonical(s)
  {
    hide Canonical;
    if s < 200 {
      Canonical24(s);
    } else if s < 208 {
      Canonical25(s);
    } else if s < 216 {
      Canonical26(s);
    } else if s < 224 {
      Canonical27(s);
    } else if s < 232 {
      Canonical28(s);
    } else if s < 240 {
      Canonical29(s);
    } else if s < 248 {
      Canonical30(s);
    } else {
      Canonical31(s);
    }
  }

  lemma TableIsCanonical(s: nat)
    requires s <= EOS
    ensures Canonical(s)
  {
    hide Canonical;
    if s < 64 {
      CanonicalQuarter0(s);
    } else if s < 128 {
      CanonicalQuarter1(s);
    } else if s < 192 {
      CanonicalQuarter2(s);
    } else if s < 256 {
      CanonicalQuarter3(s);
    } else {
      CanonicalEos();
    }
  }

  lemma LimitDoubles(n: nat)
    requires n < 30
    ensures 2 * Limit(n) <= Limit(n + 1)
  {
  }
}
