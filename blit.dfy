/**
  What `blit_screen` asks of the renderer for each cell of the screen buffer:
  fill the cell's pixel rectangle with the background colour, then copy the
  glyph's tileset cell onto it, tinted with the foreground colour. The SDL
  calls themselves are not modelled; one `DrawCmd` stands for the pair of
  calls issued for a cell.
*/
module Blit {
  import opened Tiles

  datatype Rect = Rect(x: int, y: int, w: int, h: int)

  /** Background fill of `dst`, then a copy of `src` tinted with `fg`. */
  datatype DrawCmd = DrawCmd(bg: Color, dst: Rect, fg: Color, src: Rect)

  /** The draw command for the cell at column `x`, row `y`: its palette indices
      are in range and repack to the cell's colour byte, its source rectangle
      is the glyph's 16x16 cell on the tileset's grid, and its destination is
      the cell's own 16x16 square, which for a cell of the buffer lies inside
      the window. */
  function CellDraw(t: ScreenTile, x: nat, y: nat): (d: DrawCmd)
    ensures Col(d.fg, d.bg) == t.col
    ensures d.src.w == CELL_PX && d.src.h == CELL_PX
    ensures d.src.x % CELL_PX == 0 && d.src.y % CELL_PX == 0
    ensures 0 <= d.src.x && d.src.x + d.src.w <= 16 * CELL_PX
    ensures 0 <= d.src.y && d.src.y + d.src.h <= 16 * CELL_PX
    ensures (d.src.y / CELL_PX) * 16 + d.src.x / CELL_PX == t.val as int
    ensures d.dst.w == CELL_PX && d.dst.h == CELL_PX
    ensures d.dst.x % CELL_PX == 0 && d.dst.y % CELL_PX == 0
    ensures d.dst.x / CELL_PX == x && d.dst.y / CELL_PX == y
    ensures x < SCREEN_W && y < SCREEN_H ==>
              0 <= d.dst.x && d.dst.x + d.dst.w <= SCREEN_W * CELL_PX &&
              0 <= d.dst.y && d.dst.y + d.dst.h <= SCREEN_H * CELL_PX
  {
    ColOfNibbles(t.col);
    var cell := AtlasCell(t.val);
    DrawCmd(Bg(t.col), Rect(x * CELL_PX, y * CELL_PX, CELL_PX, CELL_PX),
            Fg(t.col), Rect(cell.0, cell.1, CELL_PX, CELL_PX))
  }

  /** The loop of `blit_screen`: one command per cell, rows top to bottom and
      each row left to right. */
  method BlitScreen(screen: array2<ScreenTile>) returns (cmds: seq<DrawCmd>)
    requires screen.Length0 == SCREEN_H && screen.Length1 == SCREEN_W
    ensures |cmds| == SCREEN_H * SCREEN_W
    ensures forall i :: 0 <= i < |cmds| ==>
              cmds[i] == CellDraw(screen[i / SCREEN_W, i % SCREEN_W], i % SCREEN_W, i / SCREEN_W)
  {
    cmds := [];
    var y := 0;
    while y < SCREEN_H
      invariant 0 <= y <= SCREEN_H
      invariant |cmds| == y * SCREEN_W
      invariant forall i :: 0 <= i < |cmds| ==>
                  cmds[i] == CellDraw(screen[i / SCREEN_W, i % SCREEN_W], i % SCREEN_W, i / SCREEN_W)
    {
      var x := 0;
      while x < SCREEN_W
        invariant 0 <= x <= SCREEN_W
        invariant |cmds| == y * SCREEN_W + x
        invariant forall i :: 0 <= i < |cmds| ==>
                    cmds[i] == CellDraw(screen[i / SCREEN_W, i % SCREEN_W], i % SCREEN_W, i / SCREEN_W)
      {
        assert (y * SCREEN_W + x) / SCREEN_W == y && (y * SCREEN_W + x) % SCREEN_W == x;
        cmds := cmds + [CellDraw(screen[y, x], x, y)];
        x := x + 1;
      }
      y := y + 1;
    }
  }
}
