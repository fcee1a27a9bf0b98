/**
  The fixed-size map of the early snapshot: an 80x45 region of `Map_Tile`s,
  the bounds test on positions, the bordered read, and the terrain that
  `generate_map` lays down. Only the region that `is_pos_valid` admits is
  modelled; the backing array is larger in the program but never addressed
  outside that region through these operations.
*/
module WorldMap {
  import opened Tiles

  /** A C++ `int`. */
  type int32 = x: int | -0x8000_0000 <= x < 0x8000_0000

  /** `Vec`: a position or an offset on the map. */
  datatype Vec = Vec(x: int32, y: int32)

  const MAP_W: nat := 80
  const MAP_H: nat := 45

  /** A map cell: what it shows, whether it can be walked on, and the handle
      of the entity standing on it (0 for none). */
  datatype MapTile = MapTile(tile: ScreenTile, passable: bool, entity: nat)

  /** The 80x45 region, indexed `[y][x]` as the program's `map[y][x]`. */
  type Grid = seq<seq<MapTile>>

  predicate WellFormed(g: Grid)
  {
    |g| == MAP_H && forall y :: 0 <= y < MAP_H ==> |g[y]| == MAP_W
  }

  /** The handle marked on the tile at (x, y) of the region. */
  function Occupant(g: Grid, x: int, y: int): nat
    requires WellFormed(g) && 0 <= x < MAP_W && 0 <= y < MAP_H
  {
    g[y][x].entity
  }

  /** What `read_map` yields outside the region: a solid block, white on
      black, impassable, unoccupied. */
  const BORDER := MapTile(ScreenTile(0xDB, 0xf0), false, 0)
  /** The two terrain tiles of `generate_map`. */
  const FLOOR := MapTile(ScreenTile('.' as u8, 0xf0), true, 0)
  const WALL := MapTile(ScreenTile('#' as u8, 0xf0), false, 0)

  /** The value an `int` has once converted to `unsigned`, as happens when it
      is compared with an unsigned constant. */
  function AsUnsigned(v: int32): (u: nat)
    ensures u < 0x1_0000_0000
    ensures u % 0x1_0000_0000 == v % 0x1_0000_0000
  {
    if v < 0 then v + 0x1_0000_0000 else v
  }

  /** `is_pos_valid`: the test as written compares the signed coordinates with
      the unsigned bounds, but a negative coordinate is rejected before its
      unsigned value is looked at, so the test is exactly the region's bounds. */
  function IsPosValid(p: Vec): (valid: bool)
    ensures valid <==> 0 <= p.x < MAP_W && 0 <= p.y < MAP_H
  {
    !(p.x < 0 || p.y < 0 || AsUnsigned(p.x) >= MAP_W || AsUnsigned(p.y) >= MAP_H)
  }

  /** `read_map`: the border tile outside the region, the stored tile inside. */
  function ReadMap(g: Grid, p: Vec): (t: MapTile)
    requires WellFormed(g)
    ensures !(0 <= p.x < MAP_W && 0 <= p.y < MAP_H) ==>
              t.tile == ScreenTile(0xDB, 0xf0) && !t.passable && t.entity == 0
    ensures 0 <= p.x < MAP_W && 0 <= p.y < MAP_H ==> t == g[p.y][p.x]
  {
    if !IsPosValid(p) then BORDER else g[p.y][p.x]
  }

  /** The tile `generate_map` places for one value of `rand()`: a wall for
      one value in ten, floor otherwise. */
  function TerrainFor(roll: nat): (t: MapTile)
    ensures t == WALL || t == FLOOR
    ensures t.passable <==> roll % 10 != 0
  {
    if roll % 10 == 0 then WALL else FLOOR
  }

  /** The region after `generate_map`, given the successive values returned
      by `rand()` in the order the loops request them (row by row). Every
      tile is floor or wall and unoccupied, and it is passable exactly when
      its roll is not a multiple of ten. */
  function Generated(rolls: seq<nat>): (g: Grid)
    requires |rolls| == MAP_W * MAP_H
    ensures WellFormed(g)
    ensures forall y, x :: 0 <= y < MAP_H && 0 <= x < MAP_W ==>
              (g[y][x] == WALL || g[y][x] == FLOOR) && g[y][x].entity == 0 &&
              (g[y][x].passable <==> rolls[y * MAP_W + x] % 10 != 0)
  {
    seq(MAP_H, (y: int) requires 0 <= y < MAP_H =>
      seq(MAP_W, (x: int) requires 0 <= x < MAP_W => TerrainFor(rolls[y * MAP_W + x])))
  }

  /** The region with the occupancy of one tile replaced. */
  function SetOccupant(g: Grid, p: Vec, h: nat): (r: Grid)
    requires WellFormed(g) && IsPosValid(p)
    ensures WellFormed(r)
    ensures forall y, x :: 0 <= y < MAP_H && 0 <= x < MAP_W ==>
              r[y][x] == if y == p.y && x == p.x then g[y][x].(entity := h) else g[y][x]
  {
    g[p.y := g[p.y][p.x := g[p.y][p.x].(entity := h)]]
  }

  /** Two well-formed regions with the same tiles are equal. */
  lemma GridExt(a: Grid, b: Grid)
    requires WellFormed(a) && WellFormed(b)
    requires forall y, x :: 0 <= y < MAP_H && 0 <= x < MAP_W ==> a[y][x] == b[y][x]
    ensures a == b
  {
    forall y | 0 <= y < MAP_H
      ensures a[y] == b[y]
    {
      assert forall x :: 0 <= x < MAP_W ==> a[y][x] == b[y][x];
    }
  }
}
