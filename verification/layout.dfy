/** The 32-bit segment frame of one two-digit module. The hardware wires the
    left digit to bits 8..23 and splits the right digit across bits 0..7
    (its low byte) and bits 24..31 (its high byte). */
module Layout {

  /** Bits 8..23: the left digit. */
  const LeftBits: bv32 := 0x00FF_FF00
  /** Bits 0..7 and 24..31: the right digit. */
  const RightBits: bv32 := 0xFF00_00FF

  /** The left digit's mask moved into bits 8..23. */
  function LeftPiece(lmask: bv16): (p: bv32)
    ensures p & !LeftBits == 0
    ensures (p >> 8) as bv16 == lmask
  {
    (lmask as bv32) << 8
  }

  /** The low byte of the right digit's mask, left in bits 0..7. */
  function RightLowPiece(rmask: bv16): (p: bv32)
    ensures p & !0xFF == 0
    ensures p as bv16 == rmask & 0x00FF
  {
    (rmask as bv32) & 0x00FF
  }

  /** The high byte of the right digit's mask, moved from bits 8..15 to
      bits 24..31. */
  function RightHighPiece(rmask: bv16): (p: bv32)
    ensures p & !0xFF00_0000 == 0
    ensures (p >> 16) as bv16 == rmask & 0xFF00
  {
    ((rmask as bv32) & 0xFF00) << 16
  }

  /** `writeChars`' frame composition: the three pieces OR-ed together. */
  function Compose(lmask: bv16, rmask: bv16): (frame: bv32)
    ensures LeftDigit(frame) == lmask
    ensures RightDigit(frame) == rmask
  {
    RightLowPiece(rmask) | LeftPiece(lmask) | RightHighPiece(rmask)
  }

  /** The left digit's mask, read back from bits 8..23 of a frame. */
  function LeftDigit(frame: bv32): bv16 {
    ((frame >> 8) & 0xFFFF) as bv16
  }

  /** The right digit's mask, reassembled from bits 0..7 and 24..31. */
  function RightDigit(frame: bv32): bv16 {
    ((frame & 0xFF) | ((frame >> 16) & 0xFF00)) as bv16
  }

  /** The three pieces of a composed frame never overlap, the two digit
      regions are disjoint, and together they cover all 32 bits. */
  lemma PiecesDisjoint(lmask: bv16, rmask: bv16)
    ensures LeftPiece(lmask) & RightLowPiece(rmask) == 0
    ensures LeftPiece(lmask) & RightHighPiece(rmask) == 0
    ensures RightLowPiece(rmask) & RightHighPiece(rmask) == 0
    ensures LeftBits & RightBits == 0
    ensures LeftBits | RightBits == 0xFFFF_FFFF
  {
  }

  /** Every 32-bit frame is the composition of the two digits it shows, so
      `Compose` is a bijection between digit pairs and frames. */
  lemma DecomposeCompose(frame: bv32)
    ensures Compose(LeftDigit(frame), RightDigit(frame)) == frame
  {
  }

  /** Different digit pairs always give different frames. */
  lemma ComposeInjective(l1: bv16, r1: bv16, l2: bv16, r2: bv16)
    requires Compose(l1, r1) == Compose(l2, r2)
    ensures l1 == l2 && r1 == r2
  {
  }
}
