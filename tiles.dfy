/**
  Display cells of the screen buffer (`Screen_Tile`), the sixteen palette
  indices (`enum Color`) and the packing of a foreground and a background index
  into one colour byte (`COL`, `TILE`), together with the unpacking done per
  cell when the buffer is drawn.
*/
module Tiles {

  /** An unsigned 8-bit value (`u8`). */
  newtype u8 = x: int | 0 <= x < 256

  /** A colour byte is only ever manipulated with shifts and masks, so it is
      modelled as an 8-bit bit-vector. */
  type Byte = bv8

  /** A 4-bit palette index, one value of `enum Color`. */
  type Color = c: bv8 | c < 16

  const BLACK: Color := 0x0
  const BLUE: Color := 0x1
  const GREEN: Color := 0x2
  const CYAN: Color := 0x3
  const RED: Color := 0x4
  const MAGENTA: Color := 0x5
  const BROWN: Color := 0x6
  const LGRAY: Color := 0x7
  const DGRAY: Color := 0x8
  const LBLUE: Color := 0x9
  const LGREEN: Color := 0xA
  const LCYAN: Color := 0xB
  const LRED: Color := 0xC
  const LMAGENTA: Color := 0xD
  const YELLOW: Color := 0xE
  const WHITE: Color := 0xF

  /** Size of the screen buffer, in cells. */
  const SCREEN_W: nat := 80
  const SCREEN_H: nat := 45

  /** Side of one tileset cell and of one screen cell, in pixels. */
  const CELL_PX: nat := 16

  /** One cell of the screen: a glyph index and a packed colour byte. */
  datatype ScreenTile = ScreenTile(val: u8, col: Byte)

  /** The background index stored in the low nibble of a colour byte. */
  function Bg(col: Byte): (bg: Color)
    ensures bg == col % 16
  {
    col & 0x0f
  }

  /** The foreground index stored in the high nibble of a colour byte. */
  function Fg(col: Byte): (fg: Color)
    ensures fg == col / 16
  {
    (col & 0xf0) >> 4
  }

  /** `COL(fg, bg)`: the foreground goes to the high nibble, the background to
      the low one; both are recovered by the decoding above. */
  function Col(fg: Color, bg: Color): (col: Byte)
    ensures Fg(col) == fg && Bg(col) == bg
  {
    (fg << 4) | bg
  }

  /** Every colour byte is the packing of its own two nibbles. */
  lemma ColOfNibbles(col: Byte)
    ensures Col(Fg(col), Bg(col)) == col
  {
  }

  /** `TILE(ch, fg, bg)`. */
  function Tile(ch: u8, fg: Color, bg: Color): (t: ScreenTile)
    ensures t.val == ch && Fg(t.col) == fg && Bg(t.col) == bg
  {
    ScreenTile(ch, Col(fg, bg))
  }

  /** Top-left pixel of a glyph's cell in the 16x16-glyph tileset image. */
  function AtlasCell(val: u8): (cell: (int, int))
    ensures 0 <= cell.0 <= 15 * CELL_PX && 0 <= cell.1 <= 15 * CELL_PX
    ensures cell.0 % CELL_PX == 0 && cell.1 % CELL_PX == 0
    ensures (cell.1 / CELL_PX) * 16 + cell.0 / CELL_PX == val as int
  {
    (((val as int) % 16) * CELL_PX, ((val as int) / 16) * CELL_PX)
  }
}
