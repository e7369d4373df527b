/** The built-in sprites for the hexadecimal digits 0..F, one 5-byte glyph each, as in
    section 2.4 of Cowgod's Chip-8 Technical Reference. Each byte is one row of the glyph,
    most significant bit leftmost. */
module FontData {
  import opened DataTypes

  const FONT_CHAR_SIZE := 5       // bytes
  const FONT_NUM_CHARS := 16      // 0x0 to 0xF

  const FONT_DATA_0: seq<Byte> := [0xF0, 0x90, 0x90, 0x90, 0xF0]
  const FONT_DATA_1: seq<Byte> := [0x20, 0x60, 0x20, 0x20, 0x70]
  const FONT_DATA_2: seq<Byte> := [0xF0, 0x10, 0xF0, 0x80, 0xF0]
  const FONT_DATA_3: seq<Byte> := [0xF0, 0x10, 0xF0, 0x10, 0xF0]
  const FONT_DATA_4: seq<Byte> := [0x90, 0x90, 0xF0, 0x10, 0x10]
  const FONT_DATA_5: seq<Byte> := [0xF0, 0x80, 0xF0, 0x10, 0xF0]
  const FONT_DATA_6: seq<Byte> := [0xF0, 0x80, 0xF0, 0x90, 0xF0]
  const FONT_DATA_7: seq<Byte> := [0xF0, 0x10, 0x20, 0x40, 0x40]
  const FONT_DATA_8: seq<Byte> := [0xF0, 0x90, 0xF0, 0x90, 0xF0]
  const FONT_DATA_9: seq<Byte> := [0xF0, 0x90, 0xF0, 0x10, 0xF0]
  const FONT_DATA_A: seq<Byte> := [0xF0, 0x90, 0xF0, 0x90, 0x90]
  const FONT_DATA_B: seq<Byte> := [0xE0, 0x90, 0xE0, 0x90, 0xE0]
  const FONT_DATA_C: seq<Byte> := [0xF0, 0x80, 0x80, 0x80, 0xF0]
  const FONT_DATA_D: seq<Byte> := [0xE0, 0x90, 0x90, 0x90, 0xE0]
  const FONT_DATA_E: seq<Byte> := [0xF0, 0x80, 0xF0, 0x80, 0xF0]
  const FONT_DATA_F: seq<Byte> := [0xF0, 0x80, 0xF0, 0x80, 0x80]

  /** FONT_DATA[d] is the glyph of hex digit d. */
  const FONT_DATA: seq<seq<Byte>> := [
    FONT_DATA_0, FONT_DATA_1, FONT_DATA_2, FONT_DATA_3,
    FONT_DATA_4, FONT_DATA_5, FONT_DATA_6, FONT_DATA_7,
    FONT_DATA_8, FONT_DATA_9, FONT_DATA_A, FONT_DATA_B,
    FONT_DATA_C, FONT_DATA_D, FONT_DATA_E, FONT_DATA_F
  ]

  /** The shape load_fonts asserts: FONT_NUM_CHARS glyphs of FONT_CHAR_SIZE bytes. */
  predicate IsFontTable(font: seq<seq<Byte>>)
  {
    |font| == FONT_NUM_CHARS &&
    forall d :: 0 <= d < |font| ==> |font[d]| == FONT_CHAR_SIZE
  }

  /** There are 16 glyphs of 5 bytes each. */
  lemma FontShape()
    ensures IsFontTable(FONT_DATA)
  {
  }

  /** Every glyph row has a zero low nibble: the digits are 4 pixels wide. */
  lemma GlyphsAreFourPixelsWide()
    ensures forall d, row :: 0 <= d < FONT_NUM_CHARS && 0 <= row < FONT_CHAR_SIZE ==>
      FONT_DATA[d][row] % 16 == 0
  {
  }
}
