/** Characters as the display driver sees them, and the font lookup that
    turns one character into the 16-segment mask of a single digit. */
module Chars {

  /** A C `char` on the AVR target: a signed 8-bit value. */
  newtype SChar = x: int | -128 <= x < 128

  /** Possible values of the highest character code that has a font entry:
      any non-negative `char`. The header that fixes it is not part of this
      model. */
  type LastCharRange = n: int | 0 <= n <= 127 witness 0

  /** `lastChar`: the font covers the codes 0..LastChar. */
  const LastChar: LastCharRange

  const NUL: SChar := 0
  const SPACE: SChar := 32

  /** `'z' - 'Z'`, the distance from a lower-case letter to its capital. */
  const CaseOffset: SChar := 32
  const LowerA: SChar := 97
  const LowerZ: SChar := 122

  /** The font table: one 16-bit segment mask per code in 0..LastChar.
      Its contents are never interpreted by this model. */
  type Font = f: seq<bv16> | |f| == LastChar + 1 witness seq(LastChar + 1, i => 0)

  predicate IsLower(c: SChar) {
    LowerA <= c <= LowerZ
  }

  /** True when `c` has an entry in the font. */
  predicate InFont(c: SChar) {
    0 <= c as int <= LastChar
  }

  /** `charMask`: the segment mask of one character. Lower-case letters are
      shown as their capitals; a character without a font entry is blank. */
  function CharMask(font: Font, c: SChar): (r: bv16)
    ensures !IsLower(c) && !InFont(c) ==> r == 0
    ensures !IsLower(c) && InFont(c) ==> r == font[c]
  {
    var folded := if IsLower(c) then c - CaseOffset else c;
    if folded < 0 || folded as int > LastChar then 0 else font[folded]
  }

  /** Case folding: a lower-case letter has exactly the mask of its capital. */
  lemma CaseFolding(font: Font, c: SChar)
    requires IsLower(c)
    ensures 'A' as int <= (c - CaseOffset) as int <= 'Z' as int
    ensures CharMask(font, c) == CharMask(font, c - CaseOffset)
  {
  }

  /** A non-blank mask always comes from a font entry: the character, folded
      to upper case, lies inside the font's range. */
  lemma NonBlankIsFontEntry(font: Font, c: SChar)
    requires CharMask(font, c) != 0
    ensures var u := if IsLower(c) then c - CaseOffset else c;
            InFont(u) && CharMask(font, c) == font[u]
  {
  }
}
