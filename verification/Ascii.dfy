/** Bytes, the ASCII constants and the character classes of the HTTP parser.

    The source reads signed `char`s; every comparison it makes with them has the same
    outcome on the unsigned byte, so bytes are the integers 0..255 here. */
module Ascii {

  type Byte = b: int | 0 <= b < 256

  type Bytes = seq<Byte>

  const NUL: Byte := 0
  const TAB: Byte := 9
  const LF: Byte := 10
  const CR: Byte := 13
  const SP: Byte := 32
  const QT: Byte := 34      // "
  const HASH: Byte := 35
  const STAR: Byte := 42
  const DASH: Byte := 45
  const DOT: Byte := 46
  const SLASH: Byte := 47
  const DIGIT0: Byte := 48
  const COLON: Byte := 58
  const SEMI: Byte := 59
  const QMARK: Byte := 63
  const AT: Byte := 64
  const LBRACKET: Byte := 91
  const BACKSLASH: Byte := 92
  const RBRACKET: Byte := 93
  const UNDERSCORE: Byte := 95
  const DEL: Byte := 127

  const LETTER_A: Byte := 65
  const LETTER_C: Byte := 67
  const LETTER_D: Byte := 68
  const LETTER_E: Byte := 69
  const LETTER_G: Byte := 71
  const LETTER_H: Byte := 72
  const LETTER_L: Byte := 76
  const LETTER_M: Byte := 77
  const LETTER_N: Byte := 78
  const LETTER_O: Byte := 79
  const LETTER_P: Byte := 80
  const LETTER_R: Byte := 82
  const LETTER_S: Byte := 83
  const LETTER_T: Byte := 84
  const LETTER_U: Byte := 85
  const LOWER_C: Byte := 99
  const LOWER_T: Byte := 116
  const LOWER_U: Byte := 117

  predicate IsUpper(b: Byte) { 65 <= b <= 90 }

  predicate IsLower(b: Byte) { 97 <= b <= 122 }

  predicate IsAlpha(b: Byte) { IsUpper(b) || IsLower(b) }

  predicate IsDigit(b: Byte) { 48 <= b <= 57 }

  predicate IsAlphaNum(b: Byte) { IsAlpha(b) || IsDigit(b) }

  predicate IsHex(b: Byte) { IsDigit(b) || 65 <= b <= 70 || 97 <= b <= 102 }

  /** `c | 0x20`: sets bit 5. */
  function Lower(b: Byte): Byte {
    if (b / 32) % 2 == 0 then b + 32 else b
  }

  /** The `tokens` table: 0 for a byte that is no token, otherwise the byte with letters lower-cased. */
  function Token(b: Byte): Byte {
    if IsUpper(b) then b + 32
    else if IsLower(b) || IsDigit(b) then b
    else if b == 33 || 35 <= b <= 39 || b == 42 || b == 43 || b == 45 || b == 46 || 94 <= b <= 96
            || b == 124 || b == 126
    then b
    else 0
  }

  predicate IsToken(b: Byte) { Token(b) != 0 }

  /** The `unhex` table; only its first 128 entries are written out, so the others are 0, as for the digit 0. */
  function Unhex(b: Byte): int {
    if IsDigit(b) then b - 48
    else if 65 <= b <= 70 then b - 55
    else if 97 <= b <= 102 then b - 87
    else if b >= 128 then 0
    else -1
  }

  /** `normal_url_char` (non-strict build: tab and form feed allowed) or a byte with the high bit set. */
  predicate IsUrlChar(b: Byte) {
    b == 9 || b == 12 || (33 <= b <= 126 && b != 35 && b != 63) || b >= 128
  }

  predicate IsHostChar(b: Byte) { IsAlphaNum(b) || b == DOT || b == DASH || b == UNDERSCORE }

  predicate IsMark(b: Byte) {
    b == DASH || b == UNDERSCORE || b == DOT || b == 33 || b == 126 || b == STAR || b == 39 || b == 40 || b == 41
  }

  predicate IsUserinfoChar(b: Byte) {
    || IsAlphaNum(b) || IsMark(b)
    || b == 37 || b == SEMI || b == COLON || b == 38 || b == 61 || b == 43 || b == 36 || b == 44
  }

  predicate IsHeaderChar(b: Byte) { b == CR || b == LF || b == TAB || (b > 31 && b != DEL) }
}
