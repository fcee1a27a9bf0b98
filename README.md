# Mahou world and render engine, fixed-map snapshot

A Dafny model of the engine under the SDL code in `main.cpp` of the early,
fixed-map version of the roguelike *mahou*:

- **Entity registry**: a table of `0x1000` slots and a live count
  `entity_num`. Handles are 1-based: handle `h` names slot `h - 1` and 0 names
  no entity. `get_entity` resolves a handle and `spawn_entity` appends.
- **Bounded map**: an 80x45 region of map tiles. Each tile has a glyph, a
  packed colour byte, a `passable` flag and an occupancy field holding a
  handle. `is_pos_valid` tests the bounds. `read_map` returns a fixed border
  tile outside the region. `generate_map` fills the region with floor or
  wall.
- **Occupancy bookkeeping**: `spawn_entity` marks the new entity's tile.
  `move_entity` clears the old tile, shifts the entity and marks the new
  tile. The asserts in both rely on a map/entity consistency invariant.
- **Frame assembly**: each iteration of the main loop handles input, zeroes
  the 80x45 screen buffer, and has `render_map` fill a 31x31 window around the
  player. An occupant's tile is shown in place of the terrain under it.
  `blit_screen` then turns each cell into a background fill and a tinted
  glyph copy.
- **Colour packing**: `COL(fg, bg)` packs two 4-bit palette indices into one
  byte. `blit_screen` unpacks them again and computes each glyph's cell in the
  tileset.

Layout:

- `tiles.dfy` (`Tiles`): screen cells, colours, packing and the glyph's
  atlas cell.
- `blit.dfy` (`Blit`): the per-cell draw command and the `blit_screen` loop.
- `worldmap.dfy` (`WorldMap`): positions, map tiles, `is_pos_valid`,
  `read_map` and the generated terrain.
- `registry.dfy` (`Registry`): entity types, entities and `get_entity`.
- `worldmodel.dfy` (`WorldModel`): the world as a value. It holds the spawn
  and move transitions, the display rule, the frame, the arrow-key walk and
  the consistency invariant, with lemmas about each.
- `engine.dfy` (`Engine`): class `Game`, holding the program's globals as
  arrays. Its methods update these arrays in place. Each method is specified
  by the `WorldModel` function applied to `State()`, the value view of the
  arrays.
- `wrappers.dfy` (`Wrappers`): `Option`, standing in for a pointer that may
  be NULL.

Modelling choices:

- The preconditions are the program's asserts, plus the dereferences it
  makes without checking. `move_entity(0, …)` and `render_map` with an
  occupancy marker past `entity_num` would both dereference NULL.
- `rand()` is an oracle: `generate_map` takes the sequence of values the
  3600 calls return, row by row. A tile is a wall when its value is a
  multiple of ten.
- Coordinates are 32-bit `int`s. This lets `is_pos_valid` be modelled as
  written, comparing signed coordinates with unsigned bounds. `IsPosValid`
  proves that this comparison is exactly the region's bounds.
- The colour byte is a `bv8`, since only shifts and masks touch it. Glyph
  indices are `u8` integers, since they are divided and reduced modulo 16.

Where the behaviour described for later versions of the program differs
from this file, the model follows this file:

- `spawn_entity` asserts that the table has room and that the tile is
  empty. It does not return a null handle when full.
- `move_entity` does not consult `passable` or the destination's occupant.
  Walls do not block, and an occupant's marker is overwritten
  (`MoveClobbers`).
- There is no logical death, because no code clears an entity's type.
- There is no chunk store, noise generator, dirty bitmap or message log.

## Model

| member | source | states |
|---|---|---|
| `Tiles.Bg` | main.cpp:106 | the background index is the colour byte's low nibble, its value modulo 16 |
| `Tiles.Fg` | main.cpp:107 | the foreground index is the colour byte's high nibble, its value divided by 16 |
| `Tiles.Col` | main.cpp:60 | for palette indices below 16, the packed byte decodes back to the same foreground (high nibble) and background (low nibble) |
| `Tiles.ColOfNibbles` | main.cpp:106-107 | every colour byte is the packing of its own decoded foreground and background, so decoding and packing are mutually inverse |
| `Tiles.Tile` | main.cpp:61 | a `TILE(ch, fg, bg)` cell carries the glyph and a colour byte that decodes to `fg` and `bg` |
| `Tiles.AtlasCell` | main.cpp:110-111 | the glyph's tileset cell lies within 0..240 on both axes, on the 16-pixel grid, and the glyph index is recovered from it |
| `Blit.CellDraw` | main.cpp:104-131 | a cell's draw uses palette indices that repack to its colour byte, a 16x16 source rectangle on the tileset's 16-pixel grid, inside the tileset, that identifies the glyph, and as destination the cell's own 16x16 square at (16x, 16y), inside the 1280x720 window for a buffer cell |
| `Blit.BlitScreen` | main.cpp:101-134 | one draw per screen cell, rows top to bottom and left to right within a row, each the cell's own draw command |
| `WorldMap.AsUnsigned` | main.cpp:169 | converting a signed coordinate to unsigned keeps it congruent modulo 2^32 and below 2^32 |
| `WorldMap.IsPosValid` | main.cpp:168-170 | the mixed signed/unsigned test holds exactly when 0 <= x < 80 and 0 <= y < 45 |
| `WorldMap.ReadMap` | main.cpp:172-178 | outside the region the border tile (glyph 0xDB, colour 0xf0, impassable, unoccupied); inside, the stored tile |
| `WorldMap.TerrainFor` | main.cpp:185-189 | each tile placed is a wall or floor, and it is passable exactly when the roll is not a multiple of ten |
| `WorldMap.Generated` | main.cpp:180-192 | after generation every tile of the region is floor or wall, unoccupied, and passable exactly when its roll is not a multiple of ten |
| `Registry.GetEntity` | main.cpp:150-155 | no entity for handle 0 or any handle past the live count; otherwise the entity in slot `id - 1` |
| `WorldModel.Consistent` | main.cpp:211-221 | the map/entity invariant the asserts of `spawn_entity` and `move_entity` rely on: every live entity stands on a valid tile that names its handle, and every tile naming a handle holds that entity |
| `WorldModel.SpawnPre` | main.cpp:261-268 | what `spawn_entity` asserts: a free slot in the table, a valid position, and no entity on that tile |
| `WorldModel.Spawned` | main.cpp:260-272 | spawning appends `{type, pos}` as the last live entity, and the tile at `pos` names the new count, which is the returned handle |
| `WorldModel.SpawnKeepsOccupantsLive` | main.cpp:265-269 | spawning never leaves a marker that names no live entity |
| `WorldModel.SpawnLookup` | main.cpp:260-272 | spawning adds exactly one entity, the new handle (the new count) resolves to `{type, pos}`, every older handle resolves as before, and only the tile at `pos` changes, now naming the new handle |
| `WorldModel.SpawnKeepsConsistent` | main.cpp:260-272 | spawning onto an empty valid tile keeps the map/entity invariant |
| `WorldModel.MovePre` | main.cpp:211-221 | what `move_entity` asserts and dereferences: a live handle whose tile names it, inside the region, and an in-region destination |
| `WorldModel.Moved` | main.cpp:210-223 | a move keeps the count, gives the entity its destination position with its type unchanged, and leaves the destination tile naming it |
| `WorldModel.MoveKeepsOccupantsLive` | main.cpp:216-222 | a move, wherever it lands, never leaves a marker that names no live entity |
| `WorldModel.MovedGrid` | main.cpp:214-222 | after a move the destination names the entity, the old tile is cleared unless it is the destination, and every other tile is untouched |
| `WorldModel.MoveLookup` | main.cpp:210-223 | after a move the entity stands at position + offset with its tile naming it; the count and every other entity are unchanged; only the old and new tiles change occupancy |
| `WorldModel.MoveInPlace` | main.cpp:210-223 | a move by (0, 0) leaves the whole world unchanged, so the tile still names the entity |
| `WorldModel.MoveKeepsConsistent` | main.cpp:210-223 | a move onto a free tile, or onto the tile the entity already stands on, keeps the map/entity invariant |
| `WorldModel.MoveClobbers` | main.cpp:220-222 | a move onto another entity's tile overwrites that entity's marker, and the invariant is lost |
| `WorldModel.MoveUndo` | main.cpp:210-223 | a move onto a free tile followed by the opposite move is allowed and restores the world |
| `WorldModel.ConsistentOnePerTile` | main.cpp:215 | in a consistent world no two live entities share a position |
| `WorldModel.ConsistentOccupantsLive` | main.cpp:201-203 | in a consistent world every occupancy marker is 0 or a live handle, so `render_map` never dereferences NULL |
| `WorldModel.Resolve` | main.cpp:199-204 | an unoccupied position displays its map tile (the border outside the region); an occupied one displays the type tile of the entity its marker names |
| `WorldModel.ResolveOccupant` | main.cpp:199-204 | a live entity's position displays the entity's type tile, shadowing the terrain |
| `WorldModel.ResolveTerrain` | main.cpp:199-204 | a position with no entity displays the map tile, or the border tile outside the region |
| `WorldModel.InViewport` | main.cpp:195-197 | the cells written are exactly x in 25..55 and y in 7..37, all inside the 80x45 buffer |
| `WorldModel.FrameCell` | main.cpp:194-208 | outside x in 25..55, y in 7..37 the cell is the zeroed `{0, 0}` left by the memset; inside, it is what the world displays at the player position offset by (x - 40, y - 22) |
| `WorldModel.FrameShowsEntity` | main.cpp:194-208 | every entity within 15 cells of the player on both axes is drawn at its offset from the middle cell (40, 22); the player itself at the middle cell |
| `WorldModel.FrameShowsTerrain` | main.cpp:194-208 | a window cell whose world position holds no entity shows that position's map or border tile |
| `WorldModel.Initial` | main.cpp:255-276 | after `spawn_player` there is exactly one entity, at (40, 22), named "Human" and drawn as a yellow-on-black `H` (colour byte 0xe0) |
| `WorldModel.InitialConsistent` | main.cpp:322-323 | the generated map with no entities is consistent, and so is the world after `spawn_player`, where handle 1 is a human at (40, 22) |
| `WorldModel.KeyOffset` | main.cpp:232-249 | the arrow keys, and nothing else, move by a single step; up and down move along the y axis, left and right along the x axis, and up and left move towards 0, which pins the four offsets |
| `WorldModel.MovedAnchored` | main.cpp:210-223 | after a move the entity stands at the destination and its tile names it, so a further move can start from there |
| `WorldModel.Handled` | main.cpp:229-250 | one event keeps the count; an arrow key gives the player its destination position, anything else leaves the world as it is |
| `WorldModel.Walk` | main.cpp:225-253 | handling a batch of events keeps the number of entities, and an empty batch changes nothing |
| `WorldModel.WalkUnfold` | main.cpp:227-252 | handling the events from position `i` on is handling event `i`, then the events after it; event `i` meets `move_entity`'s asserts |
| `WorldModel.WalkPreIff` | main.cpp:221 | for an anchored entity, a sequence of arrow keys passes every assert of `move_entity` exactly when the path it traces stays inside the map |
| `WorldModel.WalkDisplacement` | main.cpp:225-253 | after the key sequence only the player has moved, by the sum of the key offsets; the count and every other entity are unchanged |
| `WorldModel.FreeWalkKeepsConsistent` | main.cpp:225-253 | a key sequence whose every step lands on a free tile keeps the map/entity invariant |
| `WorldModel.WalkKeepsAnchored` | main.cpp:225-253 | whatever the moves clobber, the player stays live and anchored inside the region, and every marker still names a live entity |
| `WorldModel.SoloWalkFree` | main.cpp:210-253 | with the player as the only entity, every step of a walk `handle_input` can process lands on a free tile, so nothing is clobbered |
| `WorldModel.SoloWalkKeepsConsistent` | main.cpp:322-331 | from a consistent world holding only the player, every batch of events keeps the map/entity invariant and the single entity |
| `Engine.WalkFrameReady` | main.cpp:325-328 | from a world with an anchored player, any batch of events `handle_input` can process leaves a world that `render_map` can draw, with the player still anchored for the next iteration |
| `Engine.InitialReady` | main.cpp:322-323 | the starting world has a live, anchored player with handle 1, so the first iteration of the main loop can draw |
| `Engine.Game.constructor` | main.cpp:96-166 | the zero-initialised globals: empty table, zeroed map and screen, player handle 0, which form a consistent world |
| `Engine.Game.GenerateMap` | main.cpp:180-192 | the nested loop leaves the region equal to the generated terrain for the given rolls |
| `Engine.Game.SpawnEntity` | main.cpp:260-272 | the new state is the spawn transition of the old one, and the returned handle is the new count |
| `Engine.Game.SpawnPlayer` | main.cpp:274-276 | spawns a human in the middle of the map and records its handle as the player's |
| `Engine.Game.Start` | main.cpp:322-323 | generating the map, then spawning the player, gives the initial world with player handle 1, which is consistent |
| `Engine.Game.MoveEntity` | main.cpp:210-223 | the new state is the move transition of the old one |
| `Engine.Game.HandleEvent` | main.cpp:229-250 | one event: a quit event raises the quit flag, an arrow key applies the move transition to the player, anything else changes nothing |
| `Engine.Game.HandleInput` | main.cpp:225-253 | the new state is the walk of the old one over the events, and the quit flag is raised exactly when a quit event occurs |
| `Engine.Game.ClearScreen` | main.cpp:327 | every cell of the screen buffer becomes `{0, 0}` |
| `Engine.Game.RenderMap` | main.cpp:194-208 | each window cell shows what the world displays at the player position plus the cell's offset from the middle cell; other cells keep their contents |
| `Engine.Game.DrawFrame` | main.cpp:327-331 | after the clear, render and blit, every cell is the frame cell (the displayed tile inside the window, `{0, 0}` outside), and one draw command is issued per cell |
| `Engine.Game.Tick` | main.cpp:325-335 | one iteration of the main loop: input is applied first, then the frame is assembled from the resulting state and drawn |

## Left out

- SDL: window, renderer, texture and image loading; the fill, copy, present and delay calls; and `main`'s setup and teardown. These are graphics and I/O plumbing. `blit_screen` is reduced to the draw commands it would issue.
- The `DEFER`/`Deferrer` scope-exit macros. These are a C++ resource idiom with no bearing on the engine.
- `COLOR_PALLETTE`'s RGB values. They are static configuration, and the model only needs palette indices below 16.
- `rand()`. Its values are an input sequence, not a pseudo-random generator.
- SDL event polling. `handle_input` receives the polled events as a sequence of `Event` values.
- The `while (not is_quitting)` loop. `Engine.Game.Tick` models one iteration; the quit flag is a field.
- The part of the backing array `map[100][100]` outside the 80x45 region. Every access goes through `is_pos_valid` or through positions that satisfy it. "Tiles outside the region are untouched" therefore has nothing to state.
- Entity types are values, not pointers. A null type pointer, which nothing in the file passes, cannot be expressed.
- Handle and count widths (`uint`, `size_t`). Both stay at most `0x1000` (the last spawn raises the count from 0xFFF to 0x1000 and returns it), so no wrap-around can occur.
- Signed overflow in `move_entity` and `render_map`. It is undefined behaviour in C++. The preconditions require the computed coordinates to stay in `int` range: an in-region destination for a move, and `ViewFits` for the window.
