/** The lower-case mapping of the Unicode Character Database that Python's `str.lower()`
    applies, on code points. */
module CaseMap {

  /** The simple lower-case mapping of the Unicode Character Database (version 15.0) on
      code points, for the blocks from Basic Latin to Cyrillic Supplement (U+0000 to U+052F)
      and for Latin Extended Additional (U+1E00 to U+1EFF); every other code point maps to
      itself. A search over the ranges of capitals: each maps by a fixed offset, or, where
      capitals and small letters alternate, to the next code point. */
  function LowerCode(n: int): (m: int)
    ensures 0x41 <= n <= 0x5A || (0xC0 <= n <= 0xDE && n != 0xD7) ==> m == n + 32
    ensures 0 <= n < 0x41 || 0x5A < n < 0xC0 || 0x530 <= n < 0x1E00 || 0x1F00 <= n ==> m == n
    ensures 0 <= n < 0xD800 ==> 0 <= m < 0xD800
    ensures 0x80 <= n < 0xD800 && n != 0x130 ==> m >= 0x80
  {
    if n < 0x1DE then
      if n < 0x196 then
        if n < 0x179 then
          if n < 0x130 then
            if n < 0xD7 then
              if n < 0x5B then
                if n < 0x41 then
                  n
                else
                  n + 32
              else
                if n < 0xC0 then
                  n
                else
                  n + 32
            else
              if n < 0xDF then
                if n < 0xD8 then
                  n
                else
                  n + 32
              else
                if n < 0x100 then
                  n
                else
                  if n < 0x12F then
                    if (n - 0x100) % 2 == 0 then n + 1 else n
                  else
                    n
          else
            if n < 0x139 then
              if n < 0x132 then
                if n < 0x131 then
                  n - 199
                else
                  n
              else
                if n < 0x137 then
                  if (n - 0x132) % 2 == 0 then n + 1 else n
                else
                  n
            else
              if n < 0x14A then
                if n < 0x148 then
                  if (n - 0x139) % 2 == 0 then n + 1 else n
                else
                  n
              else
                if n < 0x177 then
                  if (n - 0x14A) % 2 == 0 then n + 1 else n
                else
                  if n < 0x178 then
                    n
                  else
                    n - 121
        else
          if n < 0x18B then
            if n < 0x185 then
              if n < 0x181 then
                if n < 0x17E then
                  if (n - 0x179) % 2 == 0 then n + 1 else n
                else
                  n
              else
                if n < 0x182 then
                  n + 210
                else
                  if (n - 0x182) % 2 == 0 then n + 1 else n
            else
              if n < 0x187 then
                if n < 0x186 then
                  n
                else
                  n + 206
              else
                if n < 0x188 then
                  n + 1
                else
                  if n < 0x189 then
                    n
                  else
                    n + 205
          else
            if n < 0x191 then
              if n < 0x18E then
                if n < 0x18C then
                  n + 1
                else
                  n
              else
                if n < 0x18F then
                  n + 79
                else
                  if n < 0x190 then
                    n + 202
                  else
                    n + 203
            else
              if n < 0x193 then
                if n < 0x192 then
                  n + 1
                else
                  n
              else
                if n < 0x194 then
                  n + 205
                else
                  if n < 0x195 then
                    n + 207
                  else
                    n
      else
        if n < 0x1AF then
          if n < 0x1A5 then
            if n < 0x19C then
              if n < 0x198 then
                if n < 0x197 then
                  n + 211
                else
                  n + 209
              else
                if n < 0x199 then
                  n + 1
                else
                  n
            else
              if n < 0x19E then
                if n < 0x19D then
                  n + 211
                else
                  n + 213
              else
                if n < 0x19F then
                  n
                else
                  if n < 0x1A0 then
                    n + 214
                  else
                    if (n - 0x1A0) % 2 == 0 then n + 1 else n
          else
            if n < 0x1A9 then
              if n < 0x1A7 then
                if n < 0x1A6 then
                  n
                else
                  n + 218
              else
                if n < 0x1A8 then
                  n + 1
                else
                  n
            else
              if n < 0x1AC then
                if n < 0x1AA then
                  n + 218
                else
                  n
              else
                if n < 0x1AD then
                  n + 1
                else
                  if n < 0x1AE then
                    n
                  else
                    n + 218
        else
          if n < 0x1BD then
            if n < 0x1B6 then
              if n < 0x1B1 then
                if n < 0x1B0 then
                  n + 1
                else
                  n
              else
                if n < 0x1B3 then
                  n + 217
                else
                  if (n - 0x1B3) % 2 == 0 then n + 1 else n
            else
              if n < 0x1B8 then
                if n < 0x1B7 then
                  n
                else
                  n + 219
              else
                if n < 0x1B9 then
                  n + 1
                else
                  if n < 0x1BC then
                    n
                  else
                    n + 1
          else
            if n < 0x1C8 then
              if n < 0x1C5 then
                if n < 0x1C4 then
                  n
                else
                  n + 2
              else
                if n < 0x1C6 then
                  n + 1
                else
                  if n < 0x1C7 then
                    n
                  else
                    n + 2
            else
              if n < 0x1CA then
                if n < 0x1C9 then
                  n + 1
                else
                  n
              else
                if n < 0x1CB then
                  n + 2
                else
                  if n < 0x1DC then
                    if (n - 0x1CB) % 2 == 0 then n + 1 else n
                  else
                    n
    else
      if n < 0x38D then
        if n < 0x23F then
          if n < 0x220 then
            if n < 0x1F5 then
              if n < 0x1F1 then
                if n < 0x1EF then
                  if (n - 0x1DE) % 2 == 0 then n + 1 else n
                else
                  n
              else
                if n < 0x1F2 then
                  n + 2
                else
                  if (n - 0x1F2) % 2 == 0 then n + 1 else n
            else
              if n < 0x1F7 then
                if n < 0x1F6 then
                  n
                else
                  n - 97
              else
                if n < 0x1F8 then
                  n - 56
                else
                  if n < 0x21F then
                    if (n - 0x1F8) % 2 == 0 then n + 1 else n
                  else
                    n
          else
            if n < 0x23A then
              if n < 0x222 then
                if n < 0x221 then
                  n - 130
                else
                  n
              else
                if n < 0x233 then
                  if (n - 0x222) % 2 == 0 then n + 1 else n
                else
                  n
            else
              if n < 0x23C then
                if n < 0x23B then
                  n + 10795
                else
                  n + 1
              else
                if n < 0x23D then
                  n
                else
                  if n < 0x23E then
                    n - 163
                  else
                    n + 10792
        else
          if n < 0x373 then
            if n < 0x244 then
              if n < 0x242 then
                if n < 0x241 then
                  n
                else
                  n + 1
              else
                if n < 0x243 then
                  n
                else
                  n - 195
            else
              if n < 0x246 then
                if n < 0x245 then
                  n + 69
                else
                  n + 71
              else
                if n < 0x24F then
                  if (n - 0x246) % 2 == 0 then n + 1 else n
                else
                  if n < 0x370 then
                    n
                  else
                    if (n - 0x370) % 2 == 0 then n + 1 else n
          else
            if n < 0x386 then
              if n < 0x377 then
                if n < 0x376 then
                  n
                else
                  n + 1
              else
                if n < 0x37F then
                  n
                else
                  if n < 0x380 then
                    n + 116
                  else
                    n
            else
              if n < 0x388 then
                if n < 0x387 then
                  n + 38
                else
                  n
              else
                if n < 0x38B then
                  n + 37
                else
                  if n < 0x38C then
                    n
                  else
                    n + 64
      else
        if n < 0x3FD then
          if n < 0x3D8 then
            if n < 0x3A2 then
              if n < 0x390 then
                if n < 0x38E then
                  n
                else
                  n + 63
              else
                if n < 0x391 then
                  n
                else
                  n + 32
            else
              if n < 0x3AC then
                if n < 0x3A3 then
                  n
                else
                  n + 32
              else
                if n < 0x3CF then
                  n
                else
                  if n < 0x3D0 then
                    n + 8
                  else
                    n
          else
            if n < 0x3F7 then
              if n < 0x3F4 then
                if n < 0x3EF then
                  if (n - 0x3D8) % 2 == 0 then n + 1 else n
                else
                  n
              else
                if n < 0x3F5 then
                  n - 60
                else
                  n
            else
              if n < 0x3F9 then
                if n < 0x3F8 then
                  n + 1
                else
                  n
              else
                if n < 0x3FA then
                  n - 7
                else
                  if n < 0x3FB then
                    n + 1
                  else
                    n
        else
          if n < 0x4C1 then
            if n < 0x460 then
              if n < 0x410 then
                if n < 0x400 then
                  n - 130
                else
                  n + 80
              else
                if n < 0x430 then
                  n + 32
                else
                  n
            else
              if n < 0x48A then
                if n < 0x481 then
                  if (n - 0x460) % 2 == 0 then n + 1 else n
                else
                  n
              else
                if n < 0x4BF then
                  if (n - 0x48A) % 2 == 0 then n + 1 else n
                else
                  if n < 0x4C0 then
                    n
                  else
                    n + 15
          else
            if n < 0x1E95 then
              if n < 0x4D0 then
                if n < 0x4CE then
                  if (n - 0x4C1) % 2 == 0 then n + 1 else n
                else
                  n
              else
                if n < 0x52F then
                  if (n - 0x4D0) % 2 == 0 then n + 1 else n
                else
                  if n < 0x1E00 then
                    n
                  else
                    if (n - 0x1E00) % 2 == 0 then n + 1 else n
            else
              if n < 0x1E9F then
                if n < 0x1E9E then
                  n
                else
                  n - 7615
              else
                if n < 0x1EA0 then
                  n
                else
                  if n < 0x1EFF then
                    if (n - 0x1EA0) % 2 == 0 then n + 1 else n
                  else
                    n
  }

  /** A lower-cased code point is its own lower case. */
  lemma LowerCodeIdempotent(n: int)
    requires 0 <= n < 0xD800
    ensures LowerCode(LowerCode(n)) == LowerCode(n)
  {
    if n < 0x196 {
      LowerCodeFirst(n);
    } else if n < 0x1DE {
      LowerCodeSecond(n);
    } else if n < 0x38D {
      LowerCodeThird(n);
    } else {
      LowerCodeFourth(n);
    }
  }

  lemma LowerCodeFirst(n: int)
    requires 0 <= n < 0x196
    ensures LowerCode(LowerCode(n)) == LowerCode(n)
  {
  }

  lemma LowerCodeSecond(n: int)
    requires 0x196 <= n < 0x1DE
    ensures LowerCode(LowerCode(n)) == LowerCode(n)
  {
  }

  lemma LowerCodeThird(n: int)
    requires 0x1DE <= n < 0x38D
    ensures LowerCode(LowerCode(n)) == LowerCode(n)
  {
  }

  lemma LowerCodeFourth(n: int)
    requires 0x38D <= n < 0xD800
    ensures LowerCode(LowerCode(n)) == LowerCode(n)
  {
  }

  /** The Case_Ignorable property of the Unicode Character Database (version 15.0) on the
      same blocks as `LowerCode`: apostrophe, full stop, colon and the other word-internal
      punctuation, modifier letters and symbols, combining marks and the soft hyphen. Every
      other code point counts as not case-ignorable. */
  predicate CaseIgnorableCode(n: int) {
    n == 0x27 || n == 0x2E || n == 0x3A || n == 0x5E || n == 0x60 || n == 0xA8
    || n == 0xAD || n == 0xAF || n == 0xB4 || 0xB7 <= n <= 0xB8 || 0x2B0 <= n <= 0x36F
    || 0x374 <= n <= 0x375 || n == 0x37A || 0x384 <= n <= 0x385 || n == 0x387
    || 0x483 <= n <= 0x489
  }

  /** The Cased property of the Unicode Character Database (version 15.0) on the same
      blocks, for the code points that are not case-ignorable, which are the only ones the
      final-sigma test asks about: the upper-case, lower-case and title-case letters. Every
      other code point counts as not cased. */
  predicate CasedCode(n: int) {
    0x41 <= n <= 0x5A || 0x61 <= n <= 0x7A || n == 0xAA || n == 0xB5 || n == 0xBA
    || 0xC0 <= n <= 0xD6 || 0xD8 <= n <= 0xF6 || 0xF8 <= n <= 0x1BA
    || 0x1BC <= n <= 0x1BF || 0x1C4 <= n <= 0x293 || 0x295 <= n <= 0x2AF
    || 0x370 <= n <= 0x373 || 0x376 <= n <= 0x377 || 0x37B <= n <= 0x37D || n == 0x37F
    || n == 0x386 || 0x388 <= n <= 0x38A || n == 0x38C || 0x38E <= n <= 0x3A1
    || 0x3A3 <= n <= 0x3F5 || 0x3F7 <= n <= 0x481 || 0x48A <= n <= 0x52F
    || 0x1E00 <= n <= 0x1EFF
  }
}
