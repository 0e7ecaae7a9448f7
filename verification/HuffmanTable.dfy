/**
 * The Huffman code of RFC 7541 Appendix B as src/server/cmq_hpack.c tabulates it, and the
 * proof that it is prefix-free with no code of ones only. The code is canonical: the codes
 * of one length are consecutive, and each length starts where the one before it stops.
 */
module HuffmanTable {
  import opened Common
  import opened Bits
  import opened Huffman

  function Codes0(s: nat): Code {
    if s == 0 then Code(0x1ff8, 13)
    else if s == 1 then Code(0x7fffd8, 23)
    else if s == 2 then Code(0xfffffe2, 28)
    else if s == 3 then Code(0xfffffe3, 28)
    else if s == 4 then Code(0xfffffe4, 28)
    else if s == 5 then Code(0xfffffe5, 28)
    else if s == 6 then Code(0xfffffe6, 28)
    else if s == 7 then Code(0xfffffe7, 28)
    else if s == 8 then Code(0xfffffe8, 28)
    else if s == 9 then Code(0xffffea, 24)
    else if s == 10 then Code(0x3ffffffc, 30)
    else if s == 11 then Code(0xfffffe9, 28)
    else if s == 12 then Code(0xfffffea, 28)
    else if s == 13 then Code(0x3ffffffd, 30)
    else if s == 14 then Code(0xfffffeb, 28)
    else Code(0xfffffec, 28)
  }

  function Codes1(s: nat): Code {
    if s == 16 then Code(0xfffffed, 28)
    else if s == 17 then Code(0xfffffee, 28)
    else if s == 18 then Code(0xfffffef, 28)
    else if s == 19 then Code(0xffffff0, 28)
    else if s == 20 then Code(0xffffff1, 28)
    else if s == 21 then Code(0xffffff2, 28)
    else if s == 22 then Code(0x3ffffffe, 30)
    else if s == 23 then Code(0xffffff3, 28)
    else if s == 24 then Code(0xffffff4, 28)
    else if s == 25 then Code(0xffffff5, 28)
    else if s == 26 then Code(0xffffff6, 28)
    else if s == 27 then Code(0xffffff7, 28)
    else if s == 28 then Code(0xffffff8, 28)
    else if s == 29 then Code(0xffffff9, 28)
    else if s == 30 then Code(0xffffffa, 28)
    else Code(0xffffffb, 28)
  }

  function Codes2(s: nat): Code {
    if s == 32 then Code(0x14, 6)
    else if s == 33 then Code(0x3f8, 10)
    else if s == 34 then Code(0x3f9, 10)
    else if s == 35 then Code(0xffa, 12)
    else if s == 36 then Code(0x1ff9, 13)
    else if s == 37 then Code(0x15, 6)
    else if s == 38 then Code(0xf8, 8)
    else if s == 39 then Code(0x7fa, 11)
    else if s == 40 then Code(0x3fa, 10)
    else if s == 41 then Code(0x3fb, 10)
    else if s == 42 then Code(0xf9, 8)
    else if s == 43 then Code(0x7fb, 11)
    else if s == 44 then Code(0xfa, 8)
    else if s == 45 then Code(0x16, 6)
    else if s == 46 then Code(0x17, 6)
    else Code(0x18, 6)
  }

  function Codes3(s: nat): Code {
    if s == 48 then Code(0x0, 5)
    else if s == 49 then Code(0x1, 5)
    else if s == 50 then Code(0x2, 5)
    else if s == 51 then Code(0x19, 6)
    else if s == 52 then Code(0x1a, 6)
    else if s == 53 then Code(0x1b, 6)
    else if s == 54 then Code(0x1c, 6)
    else if s == 55 then Code(0x1d, 6)
    else if s == 56 then Code(0x1e, 6)
    else if s == 57 then Code(0x1f, 6)
    else if s == 58 then Code(0x5c, 7)
    else if s == 59 then Code(0xfb, 8)
    else if s == 60 then Code(0x7ffc, 15)
    else if s == 61 then Code(0x20, 6)
    else if s == 62 then Code(0xffb, 12)
    else Code(0x3fc, 10)
  }

  function Codes4(s: nat): Code {
    if s == 64 then Code(0x1ffa, 13)
    else if s == 65 then Code(0x21, 6)
    else if s == 66 then Code(0x5d, 7)
    else if s == 67 then Code(0x5e, 7)
    else if s == 68 then Code(0x5f, 7)
    else if s == 69 then Code(0x60, 7)
    else if s == 70 then Code(0x61, 7)
    else if s == 71 then Code(0x62, 7)
    else if s == 72 then Code(0x63, 7)
    else if s == 73 then Code(0x64, 7)
    else if s == 74 then Code(0x65, 7)
    else if s == 75 then Code(0x66, 7)
    else if s == 76 then Code(0x67, 7)
    else if s == 77 then Code(0x68, 7)
    else if s == 78 then Code(0x69, 7)
    else Code(0x6a, 7)
  }

  function Codes5(s: nat): Code {
    if s == 80 then Code(0x6b, 7)
    else if s == 81 then Code(0x6c, 7)
    else if s == 82 then Code(0x6d, 7)
    else if s == 83 then Code(0x6e, 7)
    else if s == 84 then Code(0x6f, 7)
    else if s == 85 then Code(0x70, 7)
    else if s == 86 then Code(0x71, 7)
    else if s == 87 then Code(0x72, 7)
    else if s == 88 then Code(0xfc, 8)
    else if s == 89 then Code(0x73, 7)
    else if s == 90 then Code(0xfd, 8)
    else if s == 91 then Code(0x1ffb, 13)
    else if s == 92 then Code(0x7fff0, 19)
    else if s == 93 then Code(0x1ffc, 13)
    else if s == 94 then Code(0x3ffc, 14)
    else Code(0x22, 6)
  }

  function Codes6(s: nat): Code {
    if s == 96 then Code(0x7ffd, 15)
    else if s == 97 then Code(0x3, 5)
    else if s == 98 then Code(0x23, 6)
    else if s == 99 then Code(0x4, 5)
    else if s == 100 then Code(0x24, 6)
    else if s == 101 then Code(0x5, 5)
    else if s == 102 then Code(0x25, 6)
    else if s == 103 then Code(0x26, 6)
    else if s == 104 then Code(0x27, 6)
    else if s == 105 then Code(0x6, 5)
    else if s == 106 then Code(0x74, 7)
    else if s == 107 then Code(0x75, 7)
    else if s == 108 then Code(0x28, 6)
    else if s == 109 then Code(0x29, 6)
    else if s == 110 then Code(0x2a, 6)
    else Code(0x7, 5)
  }

  function Codes7(s: nat): Code {
    if s == 112 then Code(0x2b, 6)
    else if s == 113 then Code(0x76, 7)
    else if s == 114 then Code(0x2c, 6)
    else if s == 115 then Code(0x8, 5)
    else if s == 116 then Code(0x9, 5)
    else if s == 117 then Code(0x2d, 6)
    else if s == 118 then Code(0x77, 7)
    else if s == 119 then Code(0x78, 7)
    else if s == 120 then Code(0x79, 7)
    else if s == 121 then Code(0x7a, 7)
    else if s == 122 then Code(0x7b, 7)
    else if s == 123 then Code(0x7ffe, 15)
    else if s == 124 then Code(0x7fc, 11)
    else if s == 125 then Code(0x3ffd, 14)
    else if s == 126 then Code(0x1ffd, 13)
    else Code(0xffffffc, 28)
  }

  function Codes8(s: nat): Code {
    if s == 128 then Code(0xfffe6, 20)
    else if s == 129 then Code(0x3fffd2, 22)
    else if s == 130 then Code(0xfffe7, 20)
    else if s == 131 then Code(0xfffe8, 20)
    else if s == 132 then Code(0x3fffd3, 22)
    else if s == 133 then Code(0x3fffd4, 22)
    else if s == 134 then Code(0x3fffd5, 22)
    else if s == 135 then Code(0x7fffd9, 23)
    else if s == 136 then Code(0x3fffd6, 22)
    else if s == 137 then Code(0x7fffda, 23)
    else if s == 138 then Code(0x7fffdb, 23)
    else if s == 139 then Code(0x7fffdc, 23)
    else if s == 140 then Code(0x7fffdd, 23)
    else if s == 141 then Code(0x7fffde, 23)
    else if s == 142 then Code(0xffffeb, 24)
    else Code(0x7fffdf, 23)
  }

  function Codes9(s: nat): Code {
    if s == 144 then Code(0xffffec, 24)
    else if s == 145 then Code(0xffffed, 24)
    else if s == 146 then Code(0x3fffd7, 22)
    else if s == 147 then Code(0x7fffe0, 23)
    else if s == 148 then Code(0xffffee, 24)
    else if s == 149 then Code(0x7fffe1, 23)
    else if s == 150 then Code(0x7fffe2, 23)
    else if s == 151 then Code(0x7fffe3, 23)
    else if s == 152 then Code(0x7fffe4, 23)
    else if s == 153 then Code(0x1fffdc, 21)
    else if s == 154 then Code(0x3fffd8, 22)
    else if s == 155 then Code(0x7fffe5, 23)
    else if s == 156 then Code(0x3fffd9, 22)
    else if s == 157 then Code(0x7fffe6, 23)
    else if s == 158 then Code(0x7fffe7, 23)
    else Code(0xffffef, 24)
  }

  function Codes10(s: nat): Code {
    if s == 160 then Code(0x3fffda, 22)
    else if s == 161 then Code(0x1fffdd, 21)
    else if s == 162 then Code(0xfffe9, 20)
    else if s == 163 then Code(0x3fffdb, 22)
    else if s == 164 then Code(0x3fffdc, 22)
    else if s == 165 then Code(0x7fffe8, 23)
    else if s == 166 then Code(0x7fffe9, 23)
    else if s == 167 then Code(0x1fffde, 21)
    else if s == 168 then Code(0x7fffea, 23)
    else if s == 169 then Code(0x3fffdd, 22)
    else if s == 170 then Code(0x3fffde, 22)
    else if s == 171 then Code(0xfffff0, 24)
    else if s == 172 then Code(0x1fffdf, 21)
    else if s == 173 then Code(0x3fffdf, 22)
    else if s == 174 then Code(0x7fffeb, 23)
    else Code(0x7fffec, 23)
  }

  function Codes11(s: nat): Code {
    if s == 176 then Code(0x1fffe0, 21)
    else if s == 177 then Code(0x1fffe1, 21)
    else if s == 178 then Code(0x3fffe0, 22)
    else if s == 179 then Code(0x1fffe2, 21)
    else if s == 180 then Code(0x7fffed, 23)
    else if s == 181 then Code(0x3fffe1, 22)
    else if s == 182 then Code(0x7fffee, 23)
    else if s == 183 then Code(0x7fffef, 23)
    else if s == 184 then Code(0xfffea, 20)
    else if s == 185 then Code(0x3fffe2, 22)
    else if s == 186 then Code(0x3fffe3, 22)
    else if s == 187 then Code(0x3fffe4, 22)
    else if s == 188 then Code(0x7ffff0, 23)
    else if s == 189 then Code(0x3fffe5, 22)
    else if s == 190 then Code(0x3fffe6, 22)
    else Code(0x7ffff1, 23)
  }

  function Codes12(s: nat): Code {
    if s == 192 then Code(0x3ffffe0, 26)
    else if s == 193 then Code(0x3ffffe1, 26)
    else if s == 194 then Code(0xfffeb, 20)
    else if s == 195 then Code(0x7fff1, 19)
    else if s == 196 then Code(0x3fffe7, 22)
    else if s == 197 then Code(0x7ffff2, 23)
    else if s == 198 then Code(0x3fffe8, 22)
    else if s == 199 then Code(0x1ffffec, 25)
    else if s == 200 then Code(0x3ffffe2, 26)
    else if s == 201 then Code(0x3ffffe3, 26)
    else if s == 202 then Code(0x3ffffe4, 26)
    else if s == 203 then Code(0x7ffffde, 27)
    else if s == 204 then Code(0x7ffffdf, 27)
    else if s == 205 then Code(0x3ffffe5, 26)
    else if s == 206 then Code(0xfffff1, 24)
    else Code(0x1ffffed, 25)
  }

  function Codes13(s: nat): Code {
    if s == 208 then Code(0x7fff2, 19)
    else if s == 209 then Code(0x1fffe3, 21)
    else if s == 210 then Code(0x3ffffe6, 26)
    else if s == 211 then Code(0x7ffffe0, 27)
    else if s == 212 then Code(0x7ffffe1, 27)
    else if s == 213 then Code(0x3ffffe7, 26)
    else if s == 214 then Code(0x7ffffe2, 27)
    else if s == 215 then Code(0xfffff2, 24)
    else if s == 216 then Code(0x1fffe4, 21)
    else if s == 217 then Code(0x1fffe5, 21)
    else if s == 218 then Code(0x3ffffe8, 26)
    else if s == 219 then Code(0x3ffffe9, 26)
    else if s == 220 then Code(0xffffffd, 28)
    else if s == 221 then Code(0x7ffffe3, 27)
    else if s == 222 then Code(0x7ffffe4, 27)
    else Code(0x7ffffe5, 27)
  }

  function Codes14(s: nat): Code {
    if s == 224 then Code(0xfffec, 20)
    else if s == 225 then Code(0xfffff3, 24)
    else if s == 226 then Code(0xfffed, 20)
    else if s == 227 then Code(0x1fffe6, 21)
    else if s == 228 then Code(0x3fffe9, 22)
    else if s == 229 then Code(0x1fffe7, 21)
    else if s == 230 then Code(0x1fffe8, 21)
    else if s == 231 then Code(0x7ffff3, 23)
    else if s == 232 then Code(0x3fffea, 22)
    else if s == 233 then Code(0x3fffeb, 22)
    else if s == 234 then Code(0x1ffffee, 25)
    else if s == 235 then Code(0x1ffffef, 25)
    else if s == 236 then Code(0xfffff4, 24)
    else if s == 237 then Code(0xfffff5, 24)
    else if s == 238 then Code(0x3ffffea, 26)
    else Code(0x7ffff4, 23)
  }

  function Codes15(s: nat): Code {
    if s == 240 then Code(0x3ffffeb, 26)
    else if s == 241 then Code(0x7ffffe6, 27)
    else if s == 242 then Code(0x3ffffec, 26)
    else if s == 243 then Code(0x3ffffed, 26)
    else if s == 244 then Code(0x7ffffe7, 27)
    else if s == 245 then Code(0x7ffffe8, 27)
    else if s == 246 then Code(0x7ffffe9, 27)
    else if s == 247 then Code(0x7ffffea, 27)
    else if s == 248 then Code(0x7ffffeb, 27)
    else if s == 249 then Code(0xffffffe, 28)
    else if s == 250 then Code(0x7ffffec, 27)
    else if s == 251 then Code(0x7ffffed, 27)
    else if s == 252 then Code(0x7ffffee, 27)
    else if s == 253 then Code(0x7ffffef, 27)
    else if s == 254 then Code(0x7fffff0, 27)
    else Code(0x3ffffee, 26)
  }

  function CodeOf(s: Byte): Code {
    if s < 128 then
      if s < 64 then
        if s < 32 then
          if s < 16 then
            Codes0(s)
          else
            Codes1(s)
        else
          if s < 48 then
            Codes2(s)
          else
            Codes3(s)
      else
        if s < 96 then
          if s < 80 then
            Codes4(s)
          else
            Codes5(s)
        else
          if s < 112 then
            Codes6(s)
          else
            Codes7(s)
    else
      if s < 192 then
        if s < 160 then
          if s < 144 then
            Codes8(s)
          else
            Codes9(s)
        else
          if s < 176 then
            Codes10(s)
          else
            Codes11(s)
      else
        if s < 224 then
          if s < 208 then
            Codes12(s)
          else
            Codes13(s)
        else
          if s < 240 then
            Codes14(s)
          else
            Codes15(s)
  }

  function AppendixB(): Table { seq(256, s requires 0 <= s < 256 => CodeOf(s)) }

  /** How many codes have one length. */
  function Count(n: nat): nat {
    if n == 5 then 10
    else if n == 6 then 26
    else if n == 7 then 32
    else if n == 8 then 6
    else if n == 10 then 5
    else if n == 11 then 3
    else if n == 12 then 2
    else if n == 13 then 6
    else if n == 14 then 2
    else if n == 15 then 3
    else if n == 19 then 3
    else if n == 20 then 8
    else if n == 21 then 13
    else if n == 22 then 26
    else if n == 23 then 29
    else if n == 24 then 12
    else if n == 25 then 4
    else if n == 26 then 15
    else if n == 27 then 19
    else if n == 28 then 29
    else if n == 30 then 3
    else 0
  }

  /** The symbols in the order of their codes, shorter codes first. */
  function Symbol(r: nat): nat {
    if r < 128 then
      if r < 64 then
        if r < 32 then
          if r < 16 then
            Symbols0(r)
          else
            Symbols1(r)
        else
          if r < 48 then
            Symbols2(r)
          else
            Symbols3(r)
      else
        if r < 96 then
          if r < 80 then
            Symbols4(r)
          else
            Symbols5(r)
        else
          if r < 112 then
            Symbols6(r)
          else
            Symbols7(r)
    else
      if r < 192 then
        if r < 160 then
          if r < 144 then
            Symbols8(r)
          else
            Symbols9(r)
        else
          if r < 176 then
            Symbols10(r)
          else
            Symbols11(r)
      else
        if r < 224 then
          if r < 208 then
            Symbols12(r)
          else
            Symbols13(r)
        else
          if r < 240 then
            Symbols14(r)
          else
            Symbols15(r)
  }

  function Symbols0(r: nat): nat {
    if r == 0 then 48 else if r == 1 then 49 else if r == 2 then 50 else if r == 3 then 97
    else if r == 4 then 99 else if r == 5 then 101 else if r == 6 then 105 else if r == 7 then 111
    else if r == 8 then 115 else if r == 9 then 116 else if r == 10 then 32 else if r == 11 then 37
    else if r == 12 then 45 else if r == 13 then 46 else if r == 14 then 47
    else 51
  }

  function Symbols1(r: nat): nat {
    if r == 16 then 52 else if r == 17 then 53 else if r == 18 then 54 else if r == 19 then 55
    else if r == 20 then 56 else if r == 21 then 57 else if r == 22 then 61 else if r == 23 then 65
    else if r == 24 then 95 else if r == 25 then 98 else if r == 26 then 100 else if r == 27 then 102
    else if r == 28 then 103 else if r == 29 then 104 else if r == 30 then 108
    else 109
  }

  function Symbols2(r: nat): nat {
    if r == 32 then 110 else if r == 33 then 112 else if r == 34 then 114 else if r == 35 then 117
    else if r == 36 then 58 else if r == 37 then 66 else if r == 38 then 67 else if r == 39 then 68
    else if r == 40 then 69 else if r == 41 then 70 else if r == 42 then 71 else if r == 43 then 72
    else if r == 44 then 73 else if r == 45 then 74 else if r == 46 then 75
    else 76
  }

  function Symbols3(r: nat): nat {
    if r == 48 then 77 else if r == 49 then 78 else if r == 50 then 79 else if r == 51 then 80
    else if r == 52 then 81 else if r == 53 then 82 else if r == 54 then 83 else if r == 55 then 84
    else if r == 56 then 85 else if r == 57 then 86 else if r == 58 then 87 else if r == 59 then 89
    else if r == 60 then 106 else if r == 61 then 107 else if r == 62 then 113
    else 118
  }

  function Symbols4(r: nat): nat {
    if r == 64 then 119 else if r == 65 then 120 else if r == 66 then 121 else if r == 67 then 122
    else if r == 68 then 38 else if r == 69 then 42 else if r == 70 then 44 else if r == 71 then 59
    else if r == 72 then 88 else if r == 73 then 90 else if r == 74 then 33 else if r == 75 then 34
    else if r == 76 then 40 else if r == 77 then 41 else if r == 78 then 63
    else 39
  }

  function Symbols5(r: nat): nat {
    if r == 80 then 43 else if r == 81 then 124 else if r == 82 then 35 else if r == 83 then 62
    else if r == 84 then 0 else if r == 85 then 36 else if r == 86 then 64 else if r == 87 then 91
    else if r == 88 then 93 else if r == 89 then 126 else if r == 90 then 94 else if r == 91 then 125
    else if r == 92 then 60 else if r == 93 then 96 else if r == 94 then 123
    else 92
  }

  function Symbols6(r: nat): nat {
    if r == 96 then 195 else if r == 97 then 208 else if r == 98 then 128 else if r == 99 then 130
    else if r == 100 then 131 else if r == 101 then 162 else if r == 102 then 184 else if r == 103 then 194
    else if r == 104 then 224 else if r == 105 then 226 else if r == 106 then 153 else if r == 107 then 161
    else if r == 108 then 167 else if r == 109 then 172 else if r == 110 then 176
    else 177
  }

  function Symbols7(r: nat): nat {
    if r == 112 then 179 else if r == 113 then 209 else if r == 114 then 216 else if r == 115 then 217
    else if r == 116 then 227 else if r == 117 then 229 else if r == 118 then 230 else if r == 119 then 129
    else if r == 120 then 132 else if r == 121 then 133 else if r == 122 then 134 else if r == 123 then 136
    else if r == 124 then 146 else if r == 125 then 154 else if r == 126 then 156
    else 160
  }

  function Symbols8(r: nat): nat {
    if r == 128 then 163 else if r == 129 then 164 else if r == 130 then 169 else if r == 131 then 170
    else if r == 132 then 173 else if r == 133 then 178 else if r == 134 then 181 else if r == 135 then 185
    else if r == 136 then 186 else if r == 137 then 187 else if r == 138 then 189 else if r == 139 then 190
    else if r == 140 then 196 else if r == 141 then 198 else if r == 142 then 228
    else 232
  }

  function Symbols9(r: nat): nat {
    if r == 144 then 233 else if r == 145 then 1 else if r == 146 then 135 else if r == 147 then 137
    else if r == 148 then 138 else if r == 149 then 139 else if r == 150 then 140 else if r == 151 then 141
    else if r == 152 then 143 else if r == 153 then 147 else if r == 154 then 149 else if r == 155 then 150
    else if r == 156 then 151 else if r == 157 then 152 else if r == 158 then 155
    else 157
  }

  function Symbols10(r: nat): nat {
    if r == 160 then 158 else if r == 161 then 165 else if r == 162 then 166 else if r == 163 then 168
    else if r == 164 then 174 else if r == 165 then 175 else if r == 166 then 180 else if r == 167 then 182
    else if r == 168 then 183 else if r == 169 then 188 else if r == 170 then 191 else if r == 171 then 197
    else if r == 172 then 231 else if r == 173 then 239 else if r == 174 then 9
    else 142
  }

  function Symbols11(r: nat): nat {
    if r == 176 then 144 else if r == 177 then 145 else if r == 178 then 148 else if r == 179 then 159
    else if r == 180 then 171 else if r == 181 then 206 else if r == 182 then 215 else if r == 183 then 225
    else if r == 184 then 236 else if r == 185 then 237 else if r == 186 then 199 else if r == 187 then 207
    else if r == 188 then 234 else if r == 189 then 235 else if r == 190 then 192
    else 193
  }

  function Symbols12(r: nat): nat {
    if r == 192 then 200 else if r == 193 then 201 else if r == 194 then 202 else if r == 195 then 205
    else if r == 196 then 210 else if r == 197 then 213 else if r == 198 then 218 else if r == 199 then 219
    else if r == 200 then 238 else if r == 201 then 240 else if r == 202 then 242 else if r == 203 then 243
    else if r == 204 then 255 else if r == 205 then 203 else if r == 206 then 204
    else 211
  }

  function Symbols13(r: nat): nat {
    if r == 208 then 212 else if r == 209 then 214 else if r == 210 then 221 else if r == 211 then 222
    else if r == 212 then 223 else if r == 213 then 241 else if r == 214 then 244 else if r == 215 then 245
    else if r == 216 then 246 else if r == 217 then 247 else if r == 218 then 248 else if r == 219 then 250
    else if r == 220 then 251 else if r == 221 then 252 else if r == 222 then 253
    else 254
  }

  function Symbols14(r: nat): nat {
    if r == 224 then 2 else if r == 225 then 3 else if r == 226 then 4 else if r == 227 then 5
    else if r == 228 then 6 else if r == 229 then 7 else if r == 230 then 8 else if r == 231 then 11
    else if r == 232 then 12 else if r == 233 then 14 else if r == 234 then 15 else if r == 235 then 16
    else if r == 236 then 17 else if r == 237 then 18 else if r == 238 then 19
    else 20
  }

  function Symbols15(r: nat): nat {
    if r == 240 then 21 else if r == 241 then 23 else if r == 242 then 24 else if r == 243 then 25
    else if r == 244 then 26 else if r == 245 then 27 else if r == 246 then 28 else if r == 247 then 29
    else if r == 248 then 30 else if r == 249 then 31 else if r == 250 then 127 else if r == 251 then 220
    else if r == 252 then 249 else if r == 253 then 10 else if r == 254 then 13
    else 22
  }

  /** The place, in that order, of the first code of one length. */
  function Before(n: nat): nat {
    if n == 5 then 0
    else if n == 6 then 10
    else if n == 7 then 36
    else if n == 8 then 68
    else if n == 10 then 74
    else if n == 11 then 79
    else if n == 12 then 82
    else if n == 13 then 84
    else if n == 14 then 90
    else if n == 15 then 92
    else if n == 19 then 95
    else if n == 20 then 98
    else if n == 21 then 106
    else if n == 22 then 119
    else if n == 23 then 145
    else if n == 24 then 174
    else if n == 25 then 186
    else if n == 26 then 190
    else if n == 27 then 205
    else if n == 28 then 224
    else if n == 30 then 253
    else 256
  }

  /** The first code of one length. */
  function First(n: nat): nat {
    if n == 5 then 0x0
    else if n == 6 then 0x14
    else if n == 7 then 0x5c
    else if n == 8 then 0xf8
    else if n == 10 then 0x3f8
    else if n == 11 then 0x7fa
    else if n == 12 then 0xffa
    else if n == 13 then 0x1ff8
    else if n == 14 then 0x3ffc
    else if n == 15 then 0x7ffc
    else if n == 19 then 0x7fff0
    else if n == 20 then 0xfffe6
    else if n == 21 then 0x1fffdc
    else if n == 22 then 0x3fffd2
    else if n == 23 then 0x7fffd8
    else if n == 24 then 0xffffea
    else if n == 25 then 0x1ffffec
    else if n == 26 then 0x3ffffe0
    else if n == 27 then 0x7ffffde
    else if n == 28 then 0xfffffe2
    else if n == 30 then 0x3ffffffc
    else 0
  }

  /** Where the codes of one length start, with all codes drawn out to 30 bits. */
  function Left(n: nat): nat {
    if n == 5 then 0x0
    else if n == 6 then 0x14000000
    else if n == 7 then 0x2e000000
    else if n == 8 then 0x3e000000
    else if n == 9 then 0x3f800000
    else if n == 10 then 0x3f800000
    else if n == 11 then 0x3fd00000
    else if n == 12 then 0x3fe80000
    else if n == 13 then 0x3ff00000
    else if n == 14 then 0x3ffc0000
    else if n == 15 then 0x3ffe0000
    else if n == 16 then 0x3fff8000
    else if n == 17 then 0x3fff8000
    else if n == 18 then 0x3fff8000
    else if n == 19 then 0x3fff8000
    else if n == 20 then 0x3fff9800
    else if n == 21 then 0x3fffb800
    else if n == 22 then 0x3fffd200
    else if n == 23 then 0x3fffec00
    else if n == 24 then 0x3ffffa80
    else if n == 25 then 0x3ffffd80
    else if n == 26 then 0x3ffffe00
    else if n == 27 then 0x3ffffef0
    else if n == 28 then 0x3fffff88
    else if n == 29 then 0x3ffffffc
    else if n == 30 then 0x3ffffffc
    else 0x3fffffff
  }

  ghost predicate Placed(c: Code, s: Byte) {
    5 <= c.len <= 30 && First(c.len) <= c.value < First(c.len) + Count(c.len) &&
    Symbol(c.value - First(c.len) + Before(c.len)) == s
  }

  lemma Placed0(s: Byte)
    requires 0 <= s < 16
    ensures Placed(CodeOf(s), s)
  {
  }

  lemma Placed1(s: Byte)
    requires 16 <= s < 32
    ensures Placed(CodeOf(s), s)
  {
  }

  lemma Placed2(s: Byte)
    requires 32 <= s < 48
    ensures Placed(CodeOf(s), s)
  {
  }

  lemma Placed3(s: Byte)
    requires 48 <= s < 64
    ensures Placed(CodeOf(s), s)
  {
  }

  lemma Placed4(s: Byte)
    requires 64 <= s < 80
    ensures Placed(CodeOf(s), s)
  {
  }

  lemma Placed5(s: Byte)
    requires 80 <= s < 96
    ensures Placed(CodeOf(s), s)
  {
  }

  lemma Placed6(s: Byte)
    requires 96 <= s < 112
    ensures Placed(CodeOf(s), s)
  {
  }

  lemma Placed7(s: Byte)
    requires 112 <= s < 128
    ensures Placed(CodeOf(s), s)
  {
  }

  lemma Placed8(s: Byte)
    requires 128 <= s < 144
    ensures Placed(CodeOf(s), s)
  {
  }

  lemma Placed9(s: Byte)
    requires 144 <= s < 160
    ensures Placed(CodeOf(s), s)
  {
  }

  lemma Placed10(s: Byte)
    requires 160 <= s < 176
    ensures Placed(CodeOf(s), s)
  {
  }

  lemma Placed11(s: Byte)
    requires 176 <= s < 192
    ensures Placed(CodeOf(s), s)
  {
  }

  lemma Placed12(s: Byte)
    requires 192 <= s < 208
    ensures Placed(CodeOf(s), s)
  {
  }

  lemma Placed13(s: Byte)
    requires 208 <= s < 224
    ensures Placed(CodeOf(s), s)
  {
  }

  lemma Placed14(s: Byte)
    requires 224 <= s < 240
    ensures Placed(CodeOf(s), s)
  {
  }

  lemma Placed15(s: Byte)
    requires 240 <= s < 256
    ensures Placed(CodeOf(s), s)
  {
  }

  /** Every symbol has the place that its code says. */
  lemma AllPlaced(s: Byte)
    ensures Placed(CodeOf(s), s)
  {
    hide CodeOf, Placed;
    if s < 16 {
      Placed0(s);
    } else if s < 32 {
      Placed1(s);
    } else if s < 48 {
      Placed2(s);
    } else if s < 64 {
      Placed3(s);
    } else if s < 80 {
      Placed4(s);
    } else if s < 96 {
      Placed5(s);
    } else if s < 112 {
      Placed6(s);
    } else if s < 128 {
      Placed7(s);
    } else if s < 144 {
      Placed8(s);
    } else if s < 160 {
      Placed9(s);
    } else if s < 176 {
      Placed10(s);
    } else if s < 192 {
      Placed11(s);
    } else if s < 208 {
      Placed12(s);
    } else if s < 224 {
      Placed13(s);
    } else if s < 240 {
      Placed14(s);
    } else {
      Placed15(s);
    }
  }

  // ---- the canonical layout ----

  /** The weight of one code of a length once it is drawn out to 30 bits. */
  function Weight(n: nat): nat {
    if n == 5 then 0x2000000
    else if n == 6 then 0x1000000
    else if n == 7 then 0x800000
    else if n == 8 then 0x400000
    else if n == 9 then 0x200000
    else if n == 10 then 0x100000
    else if n == 11 then 0x80000
    else if n == 12 then 0x40000
    else if n == 13 then 0x20000
    else if n == 14 then 0x10000
    else if n == 15 then 0x8000
    else if n == 16 then 0x4000
    else if n == 17 then 0x2000
    else if n == 18 then 0x1000
    else if n == 19 then 0x800
    else if n == 20 then 0x400
    else if n == 21 then 0x200
    else if n == 22 then 0x100
    else if n == 23 then 0x80
    else if n == 24 then 0x40
    else if n == 25 then 0x20
    else if n == 26 then 0x10
    else if n == 27 then 0x8
    else if n == 28 then 0x4
    else if n == 29 then 0x2
    else 1
  }

  lemma {:induction false} WeightIsPower(n: nat)
    requires 5 <= n <= 30
    ensures Weight(n) == Pow2(30 - n)
    decreases 30 - n
  {
    if n < 30 {
      WeightIsPower(n + 1);
      assert Weight(n) == 2 * Weight(n + 1);
    }
  }

  lemma LengthLayout(n: nat)
    requires 5 <= n <= 30 && Count(n) > 0
    ensures First(n) * Weight(n) == Left(n)
    ensures (First(n) + Count(n)) * Weight(n) == Left(n + 1)
  {
  }

  lemma {:induction false} LeftMonotone(a: nat, b: nat)
    requires 5 <= a <= b <= 31
    ensures Left(a) <= Left(b) <= 0x3fff_ffff
    decreases b - a
  {
    if a < b {
      LeftMonotone(a + 1, b);
    }
  }

  lemma MulMono(x: int, y: int, w: int)
    requires x <= y && w >= 0
    ensures x * w <= y * w
  {
    NonNegative(y - x, w);
    assert (y - x) * w == y * w - x * w;
  }

  /** Drawn out to 30 bits, a code lies between its length's start and the next length's. */
  lemma Between(s: Byte)
    ensures var c := CodeOf(s);
            5 <= c.len <= 30 && Left(c.len) <= c.value * Pow2(30 - c.len) &&
            (c.value + 1) * Pow2(30 - c.len) <= Left(c.len + 1)
  {
    hide CodeOf, Count, First, Left, Weight, Pow2;
    AllPlaced(s);
    var c := CodeOf(s);
    WeightIsPower(c.len);
    LengthLayout(c.len);
    MulMono(First(c.len), c.value, Weight(c.len));
    MulMono(c.value + 1, First(c.len) + Count(c.len), Weight(c.len));
  }

  lemma SameLengthDistinct(a: Byte, b: Byte)
    requires CodeOf(a) == CodeOf(b)
    ensures a == b
  {
    hide CodeOf, Count, First, Symbol, Before;
    AllPlaced(a);
    AllPlaced(b);
  }

  lemma Pow30()
    ensures Pow2(30) == 0x4000_0000
  {
    hide Pow2;
    Pow32();
    Pow2Steps();
  }

  lemma Pow2Steps()
    ensures Pow2(32) == 2 * Pow2(31) && Pow2(31) == 2 * Pow2(30)
  {
  }

  lemma CancelFactor(x: int, y: int, w: int)
    requires x * w < y * w && w > 0
    ensures x < y
  {
    if x >= y { MulMono(y, x, w); }
  }

  /** Every code is below the largest number of its length: it fits, and it has a zero bit. */
  lemma Fits(s: Byte)
    ensures var c := CodeOf(s); 5 <= c.len <= 30 && c.value + 1 < Pow2(c.len)
  {
    hide CodeOf, Left, Pow2;
    Between(s);
    var c := CodeOf(s);
    LeftMonotone(c.len + 1, 31);
    Pow30();
    PowAdd(c.len, 30 - c.len);
    CancelFactor(c.value + 1, Pow2(c.len), Pow2(30 - c.len));
  }

  lemma TableWellSized()
    ensures WellSized(AppendixB())
  {
    hide CodeOf, Pow2;
    forall s | 0 <= s < 256
      ensures 5 <= AppendixB()[s].len <= 30 && AppendixB()[s].value < Pow2(AppendixB()[s].len)
    {
      Fits(s);
    }
  }

  lemma HasZeroBit(v: nat, n: nat)
    requires v + 1 < Pow2(n)
    ensures !AllOnes(BitsOf(v, n))
  {
    hide Pow2, Val, BitsOf;
    ValOfBits(v, n);
    OnesTest(BitsOf(v, n), v);
    Remainder(v, Pow2(n));
  }

  /** A code that starts another is its leading digits. */
  lemma LeadingDigits(v: nat, n: nat, u: nat, m: nat)
    requires v < Pow2(n) && u < Pow2(m) && BitsOf(v, n) <= BitsOf(u, m)
    ensures n <= m && u < (v + 1) * Pow2(m - n)
  {
    hide Pow2, Val, BitsOf;
    var a, b := BitsOf(v, n), BitsOf(u, m);
    ValOfBits(v, n);
    ValOfBits(u, m);
    assert b == a + b[n..];
    ValAppend(a, b[n..]);
    assert Val(b) == v * Pow2(m - n) + Val(b[n..]);
    assert (v + 1) * Pow2(m - n) == v * Pow2(m - n) + Pow2(m - n);
  }

  lemma Scaled(u: int, x: int, d: int, w: int)
    requires u < x * d && w > 0
    ensures u * w < x * (d * w)
  {
    MulMono(u + 1, x * d, w);
    assert (u + 1) * w == u * w + w;
    assert (x * d) * w == x * (d * w);
  }

  lemma NotAPrefix(a: Byte, b: Byte)
    requires WellSized(AppendixB()) && CodeBits(AppendixB(), a) <= CodeBits(AppendixB(), b)
    ensures a == b
  {
    hide CodeOf, Left, Pow2, BitsOf;
    var c, d := CodeOf(a), CodeOf(b);
    LeadingDigits(c.value, c.len, d.value, d.len);
    Between(a);
    Between(b);
    var w := Pow2(30 - d.len);
    Scaled(d.value, c.value + 1, Pow2(d.len - c.len), w);
    PowAdd(d.len - c.len, 30 - d.len);
    assert d.value * w < Left(c.len + 1);
    if c.len < d.len {
      LeftMonotone(c.len + 1, d.len);
      assert false;
    }
    EqualBits(c, d);
    SameLengthDistinct(a, b);
  }

  lemma EqualBits(c: Code, d: Code)
    requires c.len == d.len && c.value < Pow2(c.len) && d.value < Pow2(d.len)
    requires BitsOf(c.value, c.len) <= BitsOf(d.value, d.len)
    ensures c == d
  {
    hide Pow2, BitsOf, Val;
    ValOfBits(c.value, c.len);
    ValOfBits(d.value, d.len);
    assert BitsOf(c.value, c.len) == BitsOf(d.value, d.len);
  }

  /** The table of Appendix B is what the coder needs: prefix-free, with no code of ones only. */
  lemma AppendixBIsGood()
    ensures Good(AppendixB())
  {
    hide CodeOf, Pow2, BitsOf;
    TableWellSized();
    forall a: Byte, b: Byte | CodeBits(AppendixB(), a) <= CodeBits(AppendixB(), b) ensures a == b {
      NotAPrefix(a, b);
    }
    forall s: Byte ensures !AllOnes(CodeBits(AppendixB(), s)) {
      Fits(s);
      HasZeroBit(CodeOf(s).value, CodeOf(s).len);
    }
  }

  // ---- the code is complete but for the 30 ones ----

  /** The place of a symbol in the order of the codes. */
  ghost function PlaceOf(s: Byte): int {
    CodeOf(s).value - First(CodeOf(s).len) + Before(CodeOf(s).len)
  }

  lemma PlacesInRange(n: nat)
    requires 5 <= n <= 30 && Count(n) > 0
    ensures Before(n) + Count(n) <= 256
  {
  }

  /** The places of different lengths do not overlap. */
  lemma PlacesApart(a: nat, b: nat)
    requires 5 <= a < b <= 30 && Count(a) > 0 && Count(b) > 0
    ensures Before(a) + Count(a) <= Before(b)
  {
  }

  lemma PlaceIs(s: Byte)
    ensures 0 <= PlaceOf(s) < 256 && Symbol(PlaceOf(s)) == s
    ensures var n := CodeOf(s).len; 5 <= n <= 30 && Before(n) <= PlaceOf(s) < Before(n) + Count(n)
  {
    hide CodeOf, Count, First, Before, Symbol;
    AllPlaced(s);
    PlacesInRange(CodeOf(s).len);
  }

  ghost function Places(n: nat): set<int>
    requires n <= 256
  {
    set s: Byte | s < n :: PlaceOf(s)
  }

  lemma {:induction false} PlacesSize(n: nat)
    requires n <= 256
    ensures |Places(n)| == n
  {
    hide PlaceOf, Symbol;
    if n > 0 {
      PlacesSize(n - 1);
      assert Places(n) == Places(n - 1) + {PlaceOf(n - 1)};
      PlaceIs(n - 1);
      forall s: Byte | s < n - 1 ensures PlaceOf(s) != PlaceOf(n - 1) { PlaceIs(s); }
      assert PlaceOf(n - 1) !in Places(n - 1);
    }
  }

  // ---- within a length, codes ascend with the symbols ----

  /** No code of this length is behind place r, or the next one is of a larger symbol. */
  ghost predicate Ascends(r: nat) {
    Ends(r + 1) || Symbol(r) < Symbol(r + 1)
  }

  /** The places where a length ends. */
  predicate Ends(r: nat) {
    r in {10, 36, 68, 74, 79, 82, 84, 90, 92, 95, 98, 106, 119, 145, 174, 186, 190, 205, 224, 253, 256}
  }

  lemma Ascends0(r: nat)
    requires 0 <= r < 16
    ensures Ascends(r)
  {
  }

  lemma Ascends1(r: nat)
    requires 16 <= r < 32
    ensures Ascends(r)
  {
  }

  lemma Ascends2(r: nat)
    requires 32 <= r < 48
    ensures Ascends(r)
  {
  }

  lemma Ascends3(r: nat)
    requires 48 <= r < 64
    ensures Ascends(r)
  {
  }

  lemma Ascends4(r: nat)
    requires 64 <= r < 80
    ensures Ascends(r)
  {
  }

  lemma Ascends5(r: nat)
    requires 80 <= r < 96
    ensures Ascends(r)
  {
  }

  lemma Ascends6(r: nat)
    requires 96 <= r < 112
    ensures Ascends(r)
  {
  }

  lemma Ascends7(r: nat)
    requires 112 <= r < 128
    ensures Ascends(r)
  {
  }

  lemma Ascends8(r: nat)
    requires 128 <= r < 144
    ensures Ascends(r)
  {
  }

  lemma Ascends9(r: nat)
    requires 144 <= r < 160
    ensures Ascends(r)
  {
  }

  lemma Ascends10(r: nat)
    requires 160 <= r < 176
    ensures Ascends(r)
  {
  }

  lemma Ascends11(r: nat)
    requires 176 <= r < 192
    ensures Ascends(r)
  {
  }

  lemma Ascends12(r: nat)
    requires 192 <= r < 208
    ensures Ascends(r)
  {
  }

  lemma Ascends13(r: nat)
    requires 208 <= r < 224
    ensures Ascends(r)
  {
  }

  lemma Ascends14(r: nat)
    requires 224 <= r < 240
    ensures Ascends(r)
  {
  }

  lemma Ascends15(r: nat)
    requires 240 <= r < 256
    ensures Ascends(r)
  {
  }

  lemma AllAscend(r: nat)
    requires r < 256
    ensures Ascends(r)
  {
    hide Ascends;
    if r < 16 {
      Ascends0(r);
    } else if r < 32 {
      Ascends1(r);
    } else if r < 48 {
      Ascends2(r);
    } else if r < 64 {
      Ascends3(r);
    } else if r < 80 {
      Ascends4(r);
    } else if r < 96 {
      Ascends5(r);
    } else if r < 112 {
      Ascends6(r);
    } else if r < 128 {
      Ascends7(r);
    } else if r < 144 {
      Ascends8(r);
    } else if r < 160 {
      Ascends9(r);
    } else if r < 176 {
      Ascends10(r);
    } else if r < 192 {
      Ascends11(r);
    } else if r < 208 {
      Ascends12(r);
    } else if r < 224 {
      Ascends13(r);
    } else if r < 240 {
      Ascends14(r);
    } else {
      Ascends15(r);
    }
  }

  lemma EndsApart(n: nat, r: nat)
    requires 5 <= n <= 30 && Before(n) < r < Before(n) + Count(n)
    ensures !Ends(r)
  {
  }

  lemma {:induction false} SymbolsAscend(n: nat, q: nat, r: nat)
    requires 5 <= n <= 30 && Count(n) > 0 && Before(n) <= q < r < Before(n) + Count(n)
    ensures Symbol(q) < Symbol(r)
    decreases r
  {
    PlacesInRange(n);
    AllAscend(r - 1);
    EndsApart(n, r);
    hide Before, Count, Symbol, Ends;
    if q < r - 1 { SymbolsAscend(n, q, r - 1); }
  }

  /** Of two symbols with codes of one length the larger has the larger code. */
  lemma LargerSymbolLargerCode(a: Byte, b: Byte)
    requires a < b && CodeOf(a).len == CodeOf(b).len
    ensures CodeOf(a).value < CodeOf(b).value
  {
    hide CodeOf, Count, First, Before, Symbol;
    PlaceIs(a);
    PlaceIs(b);
    if PlaceOf(b) < PlaceOf(a) { SymbolsAscend(CodeOf(a).len, PlaceOf(b), PlaceOf(a)); }
  }

  /** And a shorter code comes before every longer one, both drawn out to 30 bits. */
  lemma ShorterCodeFirst(a: Byte, b: Byte)
    requires CodeOf(a).len < CodeOf(b).len
    ensures 5 <= CodeOf(a).len && CodeOf(b).len <= 30
    ensures CodeOf(a).value * Pow2(30 - CodeOf(a).len) < CodeOf(b).value * Pow2(30 - CodeOf(b).len)
  {
    hide CodeOf, Left, Pow2;
    Between(a);
    Between(b);
    LeftMonotone(CodeOf(a).len + 1, CodeOf(b).len);
  }

  /** The numbers below n. */
  ghost function Range(n: nat): set<int> {
    if n == 0 then {} else Range(n - 1) + {n - 1}
  }

  lemma {:induction false} RangeIs(n: nat, b: int)
    ensures b in Range(n) <==> 0 <= b < n
  {
    if n > 0 { RangeIs(n - 1, b); }
  }

  lemma {:induction false} AtMost(a: set<int>, n: nat)
    requires a <= Range(n)
    ensures |a| <= n
  {
    if n > 0 {
      AtMost(a - {n - 1}, n - 1);
      assert a <= a - {n - 1} + {n - 1};
    }
  }

  /** As many symbols as places, so each place has one. */
  lemma PlaceTaken(r: nat)
    requires r < 256
    ensures exists s: Byte :: PlaceOf(s) == r
  {
    hide PlaceOf, Symbol, Range;
    PlacesSize(256);
    RangeIs(256, r);
    forall s: Byte ensures PlaceOf(s) in Range(256) {
      PlaceIs(s);
      RangeIs(256, PlaceOf(s));
    }
    if r !in Places(256) {
      AtMost(Places(256) + {r}, 256);
      assert false;
    }
  }

  /** The length whose codes cover a number. */
  lemma {:induction false} LengthFor(v: nat, n: nat) returns (m: nat)
    requires 5 <= n <= 31 && v < Left(n)
    ensures 5 <= m < n && Left(m) <= v < Left(m + 1)
    decreases n
  {
    assert Left(5) == 0;
    hide Left;
    if Left(n - 1) <= v { m := n - 1; } else { m := LengthFor(v, n - 1); }
  }

  lemma SomeCode(n: nat)
    requires 5 <= n <= 30 && Left(n) < Left(n + 1)
    ensures Count(n) > 0
  {
  }

  lemma Quotient(v: nat, a: nat, b: nat, w: nat)
    requires w > 0 && a * w <= v < b * w
    ensures a <= v / w < b && (v / w) * w <= v < (v / w + 1) * w
  {
    var x := v / w;
    assert v == w * x + v % w;
    assert (x + 1) * w == w * x + w;
    CancelFactor(a, x + 1, w);
    CancelFactor(x, b, w);
  }

  /** Every number of 30 bits but the ones is in the tile of some code. */
  lemma Covered(v: nat) returns (s: Byte)
    requires v < 0x3fff_ffff
    ensures var c := CodeOf(s);
            5 <= c.len <= 30 && c.value * Pow2(30 - c.len) <= v < (c.value + 1) * Pow2(30 - c.len)
  {
    assert Left(31) == 0x3fff_ffff;
    hide CodeOf, Count, First, Left, Weight, Pow2, Before, Symbol;
    var n := LengthFor(v, 31);
    SomeCode(n);
    LengthLayout(n);
    WeightIsPower(n);
    Quotient(v, First(n), First(n) + Count(n), Weight(n));
    var x := v / Weight(n);
    var r := x - First(n) + Before(n);
    PlacesInRange(n);
    PlaceTaken(r);
    s :| PlaceOf(s) == r;
    SamePlace(s, n, x);
  }

  lemma SamePlace(s: Byte, n: nat, x: nat)
    requires 5 <= n <= 30 && First(n) <= x < First(n) + Count(n) && PlaceOf(s) == x - First(n) + Before(n)
    ensures CodeOf(s) == Code(x, n)
  {
    hide CodeOf, Count, First, Before, Symbol;
    PlaceIs(s);
    var m := CodeOf(s).len;
    if m < n { PlacesApart(m, n); } else if n < m { PlacesApart(n, m); }
  }

  lemma LeadingValue(p: BitString, c: Code)
    requires |p| >= 30 && 5 <= c.len <= 30
    requires c.value * Pow2(30 - c.len) <= Val(p[..30]) < (c.value + 1) * Pow2(30 - c.len)
    ensures Val(p[..c.len]) == c.value
  {
    hide Pow2, Val;
    var w, v := Pow2(30 - c.len), Val(p[..30]);
    ValFront(p[..30], c.len);
    assert p[..30][..c.len] == p[..c.len];
    assert (c.value + 1) * w == c.value * w + w;
    DivMod(c.value, w, v - c.value * w);
  }

  /** Of 30 bits and more, exactly those led by 30 ones start with no code. */
  lemma StuckIsOnes(p: BitString)
    requires Good(AppendixB()) && |p| >= 30
    ensures NoHead(AppendixB(), p) <==> AllOnes(p[..30])
  {
    hide Pow2, Val, CodeOf, CodeBits, AllOnes, NoHead, PrefixFree;
    var v := Val(p[..30]);
    Pow30();
    OnesTest(p[..30], v);
    Remainder(v, Pow2(30));
    if v < 0x3fff_ffff {
      var s := Covered(v);
      LeadingValue(p, CodeOf(s));
      Compared(AppendixB(), s, p[..CodeOf(s).len]);
      HasHead(AppendixB(), p, s);
    } else {
      OnesStuck(AppendixB(), p);
    }
  }
}
