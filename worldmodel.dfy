/**
  The world as a value: the live entities and the map region. The
  transitions of `spawn_entity` and `move_entity`, the display rule used by
  `render_map`, the frame assembled each iteration of the main loop, and the
  arrow-key walk of `handle_input` are functions of it; the lemmas state
  what the program relies on and what it does not check.
*/
module WorldModel {
  import opened Wrappers
  import opened Tiles
  import opened WorldMap
  import opened Registry

  /** The live entities (slot `i` holds handle `i + 1`) and the map region. */
  datatype World = World(entities: seq<Entity>, grid: Grid)

  // ---------------------------------------------------------------------
  // Invariants

  /** Every occupancy marker inside the region is 0 or a live handle. */
  predicate OccupantsLive(w: World)
  {
    WellFormed(w.grid) &&
    forall y, x :: 0 <= y < MAP_H && 0 <= x < MAP_W ==> w.grid[y][x].entity <= |w.entities|
  }

  /** The map/entity consistency behind the asserts of `spawn_entity` and
      `move_entity`: every live entity stands on a valid position whose tile
      names it, and every tile that names a handle is where that entity
      stands. */
  predicate Consistent(w: World)
  {
    && WellFormed(w.grid)
    && |w.entities| <= CAPACITY
    && (forall i :: 0 <= i < |w.entities| ==>
          IsPosValid(w.entities[i].pos) &&
          w.grid[w.entities[i].pos.y][w.entities[i].pos.x].entity == i + 1)
    && (forall y, x :: 0 <= y < MAP_H && 0 <= x < MAP_W && Occupant(w.grid, x, y) != 0 ==>
          Occupant(w.grid, x, y) <= |w.entities| &&
          w.entities[Occupant(w.grid, x, y) - 1].pos.x == x &&
          w.entities[Occupant(w.grid, x, y) - 1].pos.y == y)
  }

  /** Handle `id` is live, stands inside the region, and its tile names it. */
  predicate Anchored(w: World, id: nat)
  {
    && WellFormed(w.grid)
    && 1 <= id <= |w.entities|
    && IsPosValid(w.entities[id - 1].pos)
    && ReadMap(w.grid, w.entities[id - 1].pos).entity == id
  }

  lemma ConsistentOccupantsLive(w: World)
    requires Consistent(w)
    ensures OccupantsLive(w)
  {
    forall y, x | 0 <= y < MAP_H && 0 <= x < MAP_W
      ensures w.grid[y][x].entity <= |w.entities|
    {
      assert Occupant(w.grid, x, y) == w.grid[y][x].entity;
    }
  }

  /** In a consistent world no two entities share a tile. */
  lemma ConsistentOnePerTile(w: World, i: nat, j: nat)
    requires Consistent(w) && i < |w.entities| && j < |w.entities|
    requires w.entities[i].pos == w.entities[j].pos
    ensures i == j
  {
  }

  // ---------------------------------------------------------------------
  // spawn_entity

  /** What `spawn_entity` asserts: a free slot, a valid position, and no
      entity on that tile. */
  predicate SpawnPre(w: World, pos: Vec)
  {
    WellFormed(w.grid) && |w.entities| < CAPACITY && IsPosValid(pos) &&
    ReadMap(w.grid, pos).entity == 0
  }

  /** The world after `spawn_entity(kind, pos)`; the handle returned is the
      new count, `|w.entities| + 1`. */
  function Spawned(w: World, kind: EntityType, pos: Vec): (r: World)
    requires SpawnPre(w, pos)
    ensures |r.entities| == |w.entities| + 1 && r.entities[|w.entities|] == Entity(kind, pos)
    ensures WellFormed(r.grid) && r.grid[pos.y][pos.x].entity == |r.entities|
  {
    World(w.entities + [Entity(kind, pos)], SetOccupant(w.grid, pos, |w.entities| + 1))
  }

  /** The new handle resolves to the new entity, every other handle resolves
      as before, and the only tile that changes is the one at `pos`, which now
      names the new handle. */
  lemma SpawnLookup(w: World, kind: EntityType, pos: Vec)
    requires SpawnPre(w, pos)
    ensures |Spawned(w, kind, pos).entities| == |w.entities| + 1
    ensures GetEntity(Spawned(w, kind, pos).entities, |w.entities| + 1) == Some(Entity(kind, pos))
    ensures forall h :: 0 <= h <= |w.entities| ==>
              GetEntity(Spawned(w, kind, pos).entities, h) == GetEntity(w.entities, h)
    ensures forall q :: ReadMap(Spawned(w, kind, pos).grid, q) ==
              if q == pos then ReadMap(w.grid, q).(entity := |w.entities| + 1) else ReadMap(w.grid, q)
  {
  }

  /** Spawning keeps the world consistent. */
  lemma SpawnKeepsConsistent(w: World, kind: EntityType, pos: Vec)
    requires Consistent(w) && SpawnPre(w, pos)
    ensures Consistent(Spawned(w, kind, pos))
  {
    SpawnKeepsAnchors(w, kind, pos);
    SpawnKeepsMarkers(w, kind, pos);
  }

  lemma SpawnKeepsAnchors(w: World, kind: EntityType, pos: Vec)
    requires Consistent(w) && SpawnPre(w, pos)
    ensures forall i :: 0 <= i < |Spawned(w, kind, pos).entities| ==>
              IsPosValid(Spawned(w, kind, pos).entities[i].pos) &&
              Spawned(w, kind, pos).grid[Spawned(w, kind, pos).entities[i].pos.y][Spawned(w, kind, pos).entities[i].pos.x].entity == i + 1
  {
    var w' := Spawned(w, kind, pos);
    forall i | 0 <= i < |w'.entities|
      ensures IsPosValid(w'.entities[i].pos)
      ensures w'.grid[w'.entities[i].pos.y][w'.entities[i].pos.x].entity == i + 1
    {
      if i < |w.entities| {
        var q := w.entities[i].pos;
        assert w'.entities[i] == w.entities[i];
        assert w.grid[q.y][q.x].entity == i + 1;
        assert !(q.y == pos.y && q.x == pos.x);
      }
    }
  }

  lemma SpawnKeepsMarkers(w: World, kind: EntityType, pos: Vec)
    requires Consistent(w) && SpawnPre(w, pos)
    ensures forall y, x :: 0 <= y < MAP_H && 0 <= x < MAP_W && Occupant(Spawned(w, kind, pos).grid, x, y) != 0 ==>
              Occupant(Spawned(w, kind, pos).grid, x, y) <= |Spawned(w, kind, pos).entities| &&
              Spawned(w, kind, pos).entities[Occupant(Spawned(w, kind, pos).grid, x, y) - 1].pos.x == x &&
              Spawned(w, kind, pos).entities[Occupant(Spawned(w, kind, pos).grid, x, y) - 1].pos.y == y
  {
    var w' := Spawned(w, kind, pos);
    forall y, x | 0 <= y < MAP_H && 0 <= x < MAP_W && Occupant(w'.grid, x, y) != 0
      ensures Occupant(w'.grid, x, y) <= |w'.entities|
      ensures w'.entities[Occupant(w'.grid, x, y) - 1].pos.x == x
      ensures w'.entities[Occupant(w'.grid, x, y) - 1].pos.y == y
    {
      if y != pos.y || x != pos.x {
        assert Occupant(w'.grid, x, y) == Occupant(w.grid, x, y);
        assert w'.entities[Occupant(w.grid, x, y) - 1] == w.entities[Occupant(w.grid, x, y) - 1];
      }
    }
  }

  /** Spawning never leaves a marker that names no live entity. */
  lemma SpawnKeepsOccupantsLive(w: World, kind: EntityType, pos: Vec)
    requires OccupantsLive(w) && SpawnPre(w, pos)
    ensures OccupantsLive(Spawned(w, kind, pos))
  {
    var w' := Spawned(w, kind, pos);
    forall y, x | 0 <= y < MAP_H && 0 <= x < MAP_W
      ensures w'.grid[y][x].entity <= |w'.entities|
    {
      if y != pos.y || x != pos.x {
        assert w'.grid[y][x] == w.grid[y][x];
      }
    }
  }

  // ---------------------------------------------------------------------
  // move_entity

  /** What `move_entity(id, off)` asserts and dereferences: a live handle,
      standing inside the region on a tile that names it, and a destination
      inside the region. */
  predicate MovePre(w: World, id: nat, off: Vec)
  {
    && Anchored(w, id)
    && 0 <= w.entities[id - 1].pos.x + off.x < MAP_W
    && 0 <= w.entities[id - 1].pos.y + off.y < MAP_H
  }

  function Destination(w: World, id: nat, off: Vec): (d: Vec)
    requires MovePre(w, id, off)
    ensures IsPosValid(d)
  {
    Vec(w.entities[id - 1].pos.x + off.x, w.entities[id - 1].pos.y + off.y)
  }

  /** The world after `move_entity(id, off)`: the old tile's occupancy is
      cleared, the entity's position is shifted, and then the destination
      tile names the entity, whoever stood there before. */
  function Moved(w: World, id: nat, off: Vec): (r: World)
    requires MovePre(w, id, off)
    ensures |r.entities| == |w.entities|
    ensures r.entities[id - 1] == Entity(w.entities[id - 1].kind, Destination(w, id, off))
    ensures WellFormed(r.grid)
    ensures r.grid[Destination(w, id, off).y][Destination(w, id, off).x].entity == id
  {
    var e := w.entities[id - 1];
    var cleared := SetOccupant(w.grid, e.pos, 0);
    World(w.entities[id - 1 := e.(pos := Destination(w, id, off))],
          SetOccupant(cleared, Destination(w, id, off), id))
  }

  /** The moved entity now stands at the destination and is still anchored
      there, the count and every other entity are unchanged, and only the old
      and the new tile change occupancy. */
  lemma MoveLookup(w: World, id: nat, off: Vec)
    requires MovePre(w, id, off)
    ensures |Moved(w, id, off).entities| == |w.entities|
    ensures GetEntity(Moved(w, id, off).entities, id) ==
              Some(Entity(w.entities[id - 1].kind, Destination(w, id, off)))
    ensures forall h :: h != id ==> GetEntity(Moved(w, id, off).entities, h) == GetEntity(w.entities, h)
    ensures Anchored(Moved(w, id, off), id)
    ensures forall q :: ReadMap(Moved(w, id, off).grid, q) ==
              if q == Destination(w, id, off) then ReadMap(w.grid, q).(entity := id)
              else if q == w.entities[id - 1].pos then ReadMap(w.grid, q).(entity := 0)
              else ReadMap(w.grid, q)
  {
  }

  /** A move by (0, 0) leaves the world exactly as it was; in particular the
      tile still names the entity. */
  lemma MoveInPlace(w: World, id: nat)
    requires MovePre(w, id, Vec(0, 0))
    ensures Moved(w, id, Vec(0, 0)) == w
  {
    var w' := Moved(w, id, Vec(0, 0));
    var e := w.entities[id - 1];
    assert w'.entities == w.entities;
    GridExt(w'.grid, w.grid);
  }

  /** The destination is free, or is the tile the entity already stands on. */
  predicate DestFree(w: World, id: nat, off: Vec)
    requires MovePre(w, id, off)
  {
    ReadMap(w.grid, Destination(w, id, off)).entity in {0, id}
  }

  /** The tiles after a move: the destination names the entity, the old tile
      is cleared unless it is the destination, the rest are untouched. */
  lemma MovedGrid(w: World, id: nat, off: Vec)
    requires MovePre(w, id, off)
    ensures WellFormed(Moved(w, id, off).grid)
    ensures forall y, x :: 0 <= y < MAP_H && 0 <= x < MAP_W ==>
              Moved(w, id, off).grid[y][x] ==
                if y == Destination(w, id, off).y && x == Destination(w, id, off).x
                then w.grid[y][x].(entity := id)
                else if y == w.entities[id - 1].pos.y && x == w.entities[id - 1].pos.x
                then w.grid[y][x].(entity := 0)
                else w.grid[y][x]
  {
  }

  /** Moving, wherever it lands, never leaves a marker that names no live
      entity: the only new marker is the moved entity's own handle. */
  lemma MoveKeepsOccupantsLive(w: World, id: nat, off: Vec)
    requires OccupantsLive(w) && MovePre(w, id, off)
    ensures OccupantsLive(Moved(w, id, off))
  {
    MovedGrid(w, id, off);
  }

  /** A move onto a free tile keeps the world consistent. */
  lemma MoveKeepsConsistent(w: World, id: nat, off: Vec)
    requires Consistent(w) && MovePre(w, id, off) && DestFree(w, id, off)
    ensures Consistent(Moved(w, id, off))
  {
    MovedGrid(w, id, off);
    MoveKeepsAnchors(w, id, off);
    MoveKeepsMarkers(w, id, off);
  }

  lemma MoveKeepsAnchors(w: World, id: nat, off: Vec)
    requires Consistent(w) && MovePre(w, id, off) && DestFree(w, id, off)
    ensures forall i :: 0 <= i < |Moved(w, id, off).entities| ==>
              IsPosValid(Moved(w, id, off).entities[i].pos) &&
              Moved(w, id, off).grid[Moved(w, id, off).entities[i].pos.y][Moved(w, id, off).entities[i].pos.x].entity == i + 1
  {
    var w' := Moved(w, id, off);
    var p := w.entities[id - 1].pos;
    var d := Destination(w, id, off);
    MovedGrid(w, id, off);
    forall i | 0 <= i < |w'.entities|
      ensures IsPosValid(w'.entities[i].pos)
      ensures w'.grid[w'.entities[i].pos.y][w'.entities[i].pos.x].entity == i + 1
    {
      if i != id - 1 {
        var q := w.entities[i].pos;
        assert w'.entities[i] == w.entities[i];
        assert w.grid[q.y][q.x].entity == i + 1;
        assert !(q.y == d.y && q.x == d.x);
        assert !(q.y == p.y && q.x == p.x);
      }
    }
  }

  lemma MoveKeepsMarkers(w: World, id: nat, off: Vec)
    requires Consistent(w) && MovePre(w, id, off) && DestFree(w, id, off)
    ensures forall y, x :: 0 <= y < MAP_H && 0 <= x < MAP_W && Occupant(Moved(w, id, off).grid, x, y) != 0 ==>
              Occupant(Moved(w, id, off).grid, x, y) <= |Moved(w, id, off).entities| &&
              Moved(w, id, off).entities[Occupant(Moved(w, id, off).grid, x, y) - 1].pos.x == x &&
              Moved(w, id, off).entities[Occupant(Moved(w, id, off).grid, x, y) - 1].pos.y == y
  {
    var w' := Moved(w, id, off);
    forall y, x | 0 <= y < MAP_H && 0 <= x < MAP_W && Occupant(w'.grid, x, y) != 0
      ensures Occupant(w'.grid, x, y) <= |w'.entities|
      ensures w'.entities[Occupant(w'.grid, x, y) - 1].pos.x == x
      ensures w'.entities[Occupant(w'.grid, x, y) - 1].pos.y == y
    {
      MovedMarker(w, id, off, y, x);
    }
  }

  /** One tile of `MoveKeepsMarkers`. */
  lemma MovedMarker(w: World, id: nat, off: Vec, y: int, x: int)
    requires Consistent(w) && MovePre(w, id, off) && DestFree(w, id, off)
    requires 0 <= y < MAP_H && 0 <= x < MAP_W && Moved(w, id, off).grid[y][x].entity != 0
    ensures Moved(w, id, off).grid[y][x].entity <= |Moved(w, id, off).entities|
    ensures Moved(w, id, off).entities[Moved(w, id, off).grid[y][x].entity - 1].pos.x == x
    ensures Moved(w, id, off).entities[Moved(w, id, off).grid[y][x].entity - 1].pos.y == y
  {
    var w' := Moved(w, id, off);
    var p := w.entities[id - 1].pos;
    var d := Destination(w, id, off);
    MovedGrid(w, id, off);
    if !(y == d.y && x == d.x) {
      assert !(y == p.y && x == p.x);
      assert w'.grid[y][x] == w.grid[y][x];
      var h := Occupant(w.grid, x, y);
      assert w.entities[h - 1].pos.x == x && w.entities[h - 1].pos.y == y;
      assert h != id;
      assert w'.entities[h - 1] == w.entities[h - 1];
    }
  }

  /** `move_entity` does not look at the destination's occupant: moving onto
      another entity's tile overwrites its marker, and the world is then no
      longer consistent. */
  lemma MoveClobbers(w: World, id: nat, off: Vec)
    requires Consistent(w) && MovePre(w, id, off)
    requires ReadMap(w.grid, Destination(w, id, off)).entity !in {0, id}
    ensures
      var j := ReadMap(w.grid, Destination(w, id, off)).entity;
      1 <= j <= |w.entities| &&
      ReadMap(Moved(w, id, off).grid, Moved(w, id, off).entities[j - 1].pos).entity == id
    ensures !Consistent(Moved(w, id, off))
  {
    var d := Destination(w, id, off);
    var j := ReadMap(w.grid, d).entity;
    var w' := Moved(w, id, off);
    assert Occupant(w.grid, d.x, d.y) == j;
    assert w'.entities[j - 1] == w.entities[j - 1];
    assert w'.grid[d.y][d.x].entity == id;
  }

  /** Moving onto a free tile and back by the opposite offset restores the
      world. */
  lemma MoveUndo(w: World, id: nat, off: Vec)
    requires Consistent(w) && MovePre(w, id, off)
    requires ReadMap(w.grid, Destination(w, id, off)).entity == 0
    ensures MovePre(Moved(w, id, off), id, Vec(-off.x, -off.y))
    ensures Moved(Moved(w, id, off), id, Vec(-off.x, -off.y)) == w
  {
    var w1 := Moved(w, id, off);
    var back := Vec(-off.x, -off.y);
    var p := w.entities[id - 1].pos;
    var d := Destination(w, id, off);
    MovedGrid(w, id, off);
    assert w1.entities[id - 1].pos == d;
    assert MovePre(w1, id, back);
    assert Destination(w1, id, back) == p;
    var w2 := Moved(w1, id, back);
    MovedGrid(w1, id, back);
    assert w2.entities[id - 1] == w.entities[id - 1];
    assert w2.entities == w.entities;
    forall y, x | 0 <= y < MAP_H && 0 <= x < MAP_W
      ensures w2.grid[y][x] == w.grid[y][x]
    {
    }
    GridExt(w2.grid, w.grid);
  }

  // ---------------------------------------------------------------------
  // What a position displays (render_map's per-cell rule)

  /** The tile shown at `p`: the occupant's prototype tile if the tile names
      an entity, otherwise the tile itself (the border outside the region). */
  function Resolve(w: World, p: Vec): (t: ScreenTile)
    requires OccupantsLive(w)
    ensures ReadMap(w.grid, p).entity == 0 ==> t == ReadMap(w.grid, p).tile
    ensures ReadMap(w.grid, p).entity != 0 ==>
              t == w.entities[ReadMap(w.grid, p).entity - 1].kind.tile
  {
    var t := ReadMap(w.grid, p);
    if t.entity != 0 then GetEntity(w.entities, t.entity).value.kind.tile else t.tile
  }

  /** An entity's tile shadows the terrain under it. */
  lemma ResolveOccupant(w: World, i: nat)
    requires Consistent(w) && i < |w.entities|
    ensures OccupantsLive(w)
    ensures Resolve(w, w.entities[i].pos) == w.entities[i].kind.tile
  {
    ConsistentOccupantsLive(w);
  }

  /** Where no entity stands, the terrain (or the border) is shown. */
  lemma ResolveTerrain(w: World, p: Vec)
    requires Consistent(w)
    requires forall i :: 0 <= i < |w.entities| ==> w.entities[i].pos != p
    ensures OccupantsLive(w)
    ensures Resolve(w, p) == ReadMap(w.grid, p).tile
    ensures !IsPosValid(p) ==> Resolve(w, p) == BORDER.tile
  {
    ConsistentOccupantsLive(w);
    if IsPosValid(p) {
      assert Occupant(w.grid, p.x, p.y) == ReadMap(w.grid, p).entity;
    }
  }

  // ---------------------------------------------------------------------
  // The frame: memset of the screen, then render_map

  /** Half the side of the square window drawn around the player. */
  const VIEW_RADIUS: int := 15

  /** The screen cells `render_map` writes: a 31x31 square centred on the
      buffer's middle cell, entirely inside the buffer. */
  function InViewport(x: int, y: int): (inside: bool)
    ensures inside <==> 25 <= x <= 55 && 7 <= y <= 37
    ensures inside ==> 0 <= x < SCREEN_W && 0 <= y < SCREEN_H
  {
    && SCREEN_W / 2 - VIEW_RADIUS <= x <= SCREEN_W / 2 + VIEW_RADIUS
    && SCREEN_H / 2 - VIEW_RADIUS <= y <= SCREEN_H / 2 + VIEW_RADIUS
  }

  /** The player position keeps every world coordinate of the window within
      the range of `int`. */
  predicate ViewFits(player: Vec)
  {
    && -0x8000_0000 + VIEW_RADIUS <= player.x < 0x8000_0000 - VIEW_RADIUS
    && -0x8000_0000 + VIEW_RADIUS <= player.y < 0x8000_0000 - VIEW_RADIUS
  }

  /** The world position shown at screen cell (x, y). */
  function ViewedPos(player: Vec, x: int, y: int): Vec
    requires ViewFits(player) && InViewport(x, y)
  {
    Vec(player.x + (x - SCREEN_W / 2), player.y + (y - SCREEN_H / 2))
  }

  /** The screen cell (x, y) after the frame step: inside the window, what the
      world displays at the matching position; elsewhere the zeroed cell. */
  function FrameCell(w: World, player: Vec, x: int, y: int): (c: ScreenTile)
    requires OccupantsLive(w) && ViewFits(player)
    ensures !(25 <= x <= 55 && 7 <= y <= 37) ==> c == ScreenTile(0, 0)
    ensures 25 <= x <= 55 && 7 <= y <= 37 ==>
              c == Resolve(w, Vec(player.x + x - 40, player.y + y - 22))
  {
    if InViewport(x, y) then Resolve(w, ViewedPos(player, x, y)) else ScreenTile(0, 0)
  }

  /** Every entity within the window's reach of the player is drawn at its
      offset from the middle cell; the player itself at the middle cell. */
  lemma FrameShowsEntity(w: World, player: nat, i: nat)
    requires Consistent(w) && 1 <= player <= |w.entities| && i < |w.entities|
    requires -15 <= w.entities[i].pos.x - w.entities[player - 1].pos.x <= 15
    requires -15 <= w.entities[i].pos.y - w.entities[player - 1].pos.y <= 15
    ensures OccupantsLive(w) && ViewFits(w.entities[player - 1].pos)
    ensures FrameCell(w, w.entities[player - 1].pos,
                      40 + (w.entities[i].pos.x - w.entities[player - 1].pos.x),
                      22 + (w.entities[i].pos.y - w.entities[player - 1].pos.y))
            == w.entities[i].kind.tile
  {
    var pp := w.entities[player - 1].pos;
    var q := w.entities[i].pos;
    assert ViewedPos(pp, 40 + (q.x - pp.x), 22 + (q.y - pp.y)) == q;
    ResolveOccupant(w, i);
  }

  /** Where no entity stands inside the window, the terrain or border tile is
      drawn. */
  lemma FrameShowsTerrain(w: World, player: Vec, x: int, y: int)
    requires Consistent(w) && ViewFits(player) && InViewport(x, y)
    requires forall i :: 0 <= i < |w.entities| ==> w.entities[i].pos != ViewedPos(player, x, y)
    ensures OccupantsLive(w)
    ensures FrameCell(w, player, x, y) == ReadMap(w.grid, ViewedPos(player, x, y)).tile
  {
    ResolveTerrain(w, ViewedPos(player, x, y));
  }

  // ---------------------------------------------------------------------
  // The starting world: generate_map, then spawn_player

  /** Where `spawn_player` puts the player: the middle of the map. */
  const PLAYER_START := Vec(MAP_W / 2, MAP_H / 2)

  /** The world after `generate_map(); spawn_player();`. */
  function Initial(rolls: seq<nat>): (w: World)
    requires |rolls| == MAP_W * MAP_H
    ensures |w.entities| == 1
    ensures w.entities[0].pos == Vec(40, 22)
    ensures w.entities[0].kind.name == "Human" && w.entities[0].kind.tile == ScreenTile('H' as u8, 0xe0)
  {
    Spawned(World([], Generated(rolls)), HUMAN, PLAYER_START)
  }

  /** A freshly generated map with no entities is consistent, and so is the
      world once the player is spawned on it, with handle 1. */
  lemma InitialConsistent(rolls: seq<nat>)
    requires |rolls| == MAP_W * MAP_H
    ensures Consistent(World([], Generated(rolls)))
    ensures Consistent(Initial(rolls))
    ensures GetEntity(Initial(rolls).entities, 1) == Some(Entity(HUMAN, PLAYER_START))
  {
  }

  // ---------------------------------------------------------------------
  // handle_input: the arrow keys move the player

  /** The keys `handle_input` distinguishes; every other key is ignored. */
  datatype Key = Up | Down | Left | Right | OtherKey

  /** The events `handle_input` reacts to; every other event is ignored. */
  datatype Event = Quit | KeyDown(key: Key) | OtherEvent

  function Abs(v: int): nat
  {
    if v < 0 then -v else v
  }

  /** The offset an event makes the player move by: a single step along one
      axis for an arrow key, none for anything else. Up is towards row 0. */
  function KeyOffset(e: Event): (off: Option<Vec>)
    ensures off.Some? <==> e.KeyDown? && e.key != OtherKey
    ensures off.Some? ==> Abs(off.value.x) + Abs(off.value.y) == 1
    ensures off.Some? ==> (off.value.y < 0 <==> e.key == Up) && (off.value.x < 0 <==> e.key == Left)
    ensures off.Some? ==> (off.value.x == 0 <==> e.key in {Up, Down})
  {
    match e
    case KeyDown(Up) => Some(Vec(0, -1))
    case KeyDown(Down) => Some(Vec(0, 1))
    case KeyDown(Left) => Some(Vec(-1, 0))
    case KeyDown(Right) => Some(Vec(1, 0))
    case _ => None
  }

  /** What the moves of a sequence of events demand of entity `id`: each move
      meets the asserts of `move_entity` in the world left by the moves before
      it. */
  predicate WalkPre(w: World, id: nat, events: seq<Event>)
    decreases |events|
  {
    events == [] ||
    match KeyOffset(events[0])
    case None => WalkPre(w, id, events[1..])
    case Some(off) => MovePre(w, id, off) && WalkPre(Moved(w, id, off), id, events[1..])
  }

  /** The world after `handle_input` has moved entity `id` for each event. */
  function Walk(w: World, id: nat, events: seq<Event>): (r: World)
    requires WalkPre(w, id, events)
    ensures |r.entities| == |w.entities|
    ensures events == [] ==> r == w
    decreases |events|
  {
    if events == [] then w
    else match KeyOffset(events[0])
      case None => Walk(w, id, events[1..])
      case Some(off) => Walk(Moved(w, id, off), id, events[1..])
  }

  /** What one event asks of the world: an arrow key needs its move to be allowed. */
  predicate HandlePre(w: World, id: nat, e: Event)
  {
    KeyOffset(e).Some? ==> MovePre(w, id, KeyOffset(e).value)
  }

  /** The world after one event: an arrow key moves entity `id`, anything else
      leaves the world as it is. */
  function Handled(w: World, id: nat, e: Event): (r: World)
    requires HandlePre(w, id, e)
    ensures |r.entities| == |w.entities|
    ensures KeyOffset(e).None? ==> r == w
    ensures KeyOffset(e).Some? ==>
              r.entities[id - 1] == w.entities[id - 1].(pos := Destination(w, id, KeyOffset(e).value))
  {
    match KeyOffset(e)
    case None => w
    case Some(off) => Moved(w, id, off)
  }

  /** One step of a walk: the event at `i`, then the events after it. */
  lemma WalkUnfold(w: World, id: nat, events: seq<Event>, i: nat)
    requires i < |events| && WalkPre(w, id, events[i..])
    ensures HandlePre(w, id, events[i])
    ensures WalkPre(Handled(w, id, events[i]), id, events[i + 1..])
    ensures Walk(w, id, events[i..]) == Walk(Handled(w, id, events[i]), id, events[i + 1..])
  {
    assert events[i..][0] == events[i];
    assert events[i..][1..] == events[i + 1..];
  }

  /** The step an event contributes, as a pair of integers. */
  function Step(e: Event): (int, int)
  {
    match KeyOffset(e)
    case None => (0, 0)
    case Some(off) => (off.x, off.y)
  }

  /** The sum of the steps of a sequence of events. */
  function Displacement(events: seq<Event>): (int, int)
    decreases |events|
  {
    if events == [] then (0, 0)
    else (Step(events[0]).0 + Displacement(events[1..]).0,
          Step(events[0]).1 + Displacement(events[1..]).1)
  }

  /** Every position the walk passes through, starting from (x, y), lies
      inside the map region. */
  predicate PathOnMap(x: int, y: int, events: seq<Event>)
    decreases |events|
  {
    events == [] ||
    (0 <= x + Step(events[0]).0 < MAP_W && 0 <= y + Step(events[0]).1 < MAP_H &&
     PathOnMap(x + Step(events[0]).0, y + Step(events[0]).1, events[1..]))
  }

  /** After a move the entity stands, anchored, at the destination. */
  lemma MovedAnchored(w: World, id: nat, off: Vec)
    requires MovePre(w, id, off)
    ensures Anchored(Moved(w, id, off), id)
    ensures Moved(w, id, off).entities[id - 1].pos == Destination(w, id, off)
  {
    MoveLookup(w, id, off);
  }

  /** For an entity anchored inside the region, the events can be handled
      without failing an assert exactly when the path they trace stays on the
      map. */
  lemma {:induction false} WalkPreIff(w: World, id: nat, events: seq<Event>)
    requires Anchored(w, id)
    ensures WalkPre(w, id, events) <==>
              PathOnMap(w.entities[id - 1].pos.x, w.entities[id - 1].pos.y, events)
    decreases |events|
  {
    if events != [] {
      match KeyOffset(events[0])
      case None =>
        WalkPreIff(w, id, events[1..]);
      case Some(off) =>
        if MovePre(w, id, off) {
          MovedAnchored(w, id, off);
          WalkPreIff(Moved(w, id, off), id, events[1..]);
        }
    }
  }

  /** After the walk only entity `id` has moved, by the walk's displacement;
      the count and every other entity are unchanged. */
  lemma {:induction false} WalkDisplacement(w: World, id: nat, events: seq<Event>)
    requires WalkPre(w, id, events) && 1 <= id <= |w.entities|
    ensures |Walk(w, id, events).entities| == |w.entities|
    ensures Walk(w, id, events).entities[id - 1].kind == w.entities[id - 1].kind
    ensures Walk(w, id, events).entities[id - 1].pos.x == w.entities[id - 1].pos.x + Displacement(events).0
    ensures Walk(w, id, events).entities[id - 1].pos.y == w.entities[id - 1].pos.y + Displacement(events).1
    ensures forall k :: 0 <= k < |w.entities| && k != id - 1 ==>
              Walk(w, id, events).entities[k] == w.entities[k]
    decreases |events|
  {
    if events != [] {
      match KeyOffset(events[0])
      case None =>
        WalkDisplacement(w, id, events[1..]);
      case Some(off) =>
        WalkDisplacement(Moved(w, id, off), id, events[1..]);
    }
  }

  /** The walking entity stays live and anchored inside the region, and every
      marker keeps naming a live entity, whether or not the moves clobber
      other entities' markers. */
  lemma {:induction false} WalkKeepsAnchored(w: World, id: nat, events: seq<Event>)
    requires OccupantsLive(w) && Anchored(w, id) && WalkPre(w, id, events)
    ensures OccupantsLive(Walk(w, id, events)) && Anchored(Walk(w, id, events), id)
    decreases |events|
  {
    if events != [] {
      match KeyOffset(events[0])
      case None =>
        WalkKeepsAnchored(w, id, events[1..]);
      case Some(off) =>
        MoveKeepsOccupantsLive(w, id, off);
        MovedAnchored(w, id, off);
        WalkKeepsAnchored(Moved(w, id, off), id, events[1..]);
    }
  }

  /** Like `WalkPre`, and in addition each move lands on a free tile. */
  predicate FreeWalk(w: World, id: nat, events: seq<Event>)
    decreases |events|
  {
    events == [] ||
    match KeyOffset(events[0])
    case None => FreeWalk(w, id, events[1..])
    case Some(off) =>
      MovePre(w, id, off) && DestFree(w, id, off) && FreeWalk(Moved(w, id, off), id, events[1..])
  }

  /** A walk whose every step lands on a free tile keeps the world consistent. */
  lemma {:induction false} FreeWalkKeepsConsistent(w: World, id: nat, events: seq<Event>)
    requires Consistent(w) && FreeWalk(w, id, events)
    ensures WalkPre(w, id, events)
    ensures Consistent(Walk(w, id, events))
    decreases |events|
  {
    if events != [] {
      match KeyOffset(events[0])
      case None =>
        FreeWalkKeepsConsistent(w, id, events[1..]);
      case Some(off) =>
        MoveKeepsConsistent(w, id, off);
        FreeWalkKeepsConsistent(Moved(w, id, off), id, events[1..]);
    }
  }

  /** With the player as the only entity, as in the running program, no move
      can land on another entity's tile: every walk `handle_input` can process
      lands each step on a free tile. */
  lemma {:induction false} SoloWalkFree(w: World, events: seq<Event>)
    requires Consistent(w) && |w.entities| == 1 && WalkPre(w, 1, events)
    ensures FreeWalk(w, 1, events)
    decreases |events|
  {
    if events != [] {
      match KeyOffset(events[0])
      case None =>
        SoloWalkFree(w, events[1..]);
      case Some(off) =>
        var d := Destination(w, 1, off);
        assert Occupant(w.grid, d.x, d.y) == ReadMap(w.grid, d).entity;
        assert DestFree(w, 1, off);
        MoveKeepsConsistent(w, 1, off);
        SoloWalkFree(Moved(w, 1, off), events[1..]);
    }
  }

  /** Hence, from the starting world, the map/entity invariant holds after
      every batch of events the main loop handles. */
  lemma SoloWalkKeepsConsistent(w: World, events: seq<Event>)
    requires Consistent(w) && |w.entities| == 1 && WalkPre(w, 1, events)
    ensures Consistent(Walk(w, 1, events)) && |Walk(w, 1, events).entities| == 1
  {
    SoloWalkFree(w, events);
    FreeWalkKeepsConsistent(w, 1, events);
  }
}
