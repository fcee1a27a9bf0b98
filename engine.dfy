/**
  The program's global state and the operations that update it in place:
  the entity table `entities` with its count `entity_num`, the map array,
  the screen buffer, the player's handle and the quit flag, gathered in one
  object. Each method is specified by the value-level functions of
  `WorldModel` applied to `State()`, the abstract view of the arrays.
*/
module Engine {
  import opened Wrappers
  import opened Tiles
  import opened WorldMap
  import opened Registry
  import opened WorldModel
  import Blit

  /** The zero-initialised contents of the global arrays. */
  const BLANK := ScreenTile(0, 0)
  const ZERO_TILE := MapTile(BLANK, false, 0)
  const NO_ENTITY := Entity(EntityType("", BLANK), Vec(0, 0))

  /** What the frame step needs: live occupancy markers and a live player
      whose window stays within the range of `int`. */
  predicate FrameReady(w: World, player: nat)
  {
    OccupantsLive(w) && 1 <= player <= |w.entities| && ViewFits(w.entities[player - 1].pos)
  }

  /** From a world with a live, anchored player, any batch of events that
      `handle_input` can process leaves a world the frame step can draw, with
      the player still anchored for the next iteration. */
  lemma WalkFrameReady(w: World, player: nat, events: seq<Event>)
    requires OccupantsLive(w) && Anchored(w, player) && WalkPre(w, player, events)
    ensures FrameReady(Walk(w, player, events), player)
    ensures Anchored(Walk(w, player, events), player)
  {
    WalkKeepsAnchored(w, player, events);
  }

  /** The starting world has a live, anchored player with handle 1. */
  lemma InitialReady(rolls: seq<nat>)
    requires |rolls| == MAP_W * MAP_H
    ensures OccupantsLive(Initial(rolls)) && Anchored(Initial(rolls), 1)
  {
    InitialConsistent(rolls);
    ConsistentOccupantsLive(Initial(rolls));
  }

  /** Growing a prefix by one event adds that event to what it contains. */
  lemma QuitInPrefix(events: seq<Event>, i: nat)
    requires i < |events|
    ensures (Quit in events[..i + 1]) == (Quit in events[..i] || events[i] == Quit)
  {
    assert events[..i + 1] == events[..i] + [events[i]];
  }

  class Game {
    var entities: array<Entity>
    var entityNum: nat
    var mapTiles: array2<MapTile>
    var screen: array2<ScreenTile>
    var playerEntity: nat
    var isQuitting: bool

    ghost predicate Valid()
      reads this`entities, this`entityNum, this`mapTiles, this`screen
    {
      && entities.Length == CAPACITY && entityNum <= CAPACITY
      && mapTiles.Length0 == MAP_H && mapTiles.Length1 == MAP_W
      && screen.Length0 == SCREEN_H && screen.Length1 == SCREEN_W
    }

    /** The map region as a value. */
    ghost function Region(): (g: Grid)
      reads this`entities, this`entityNum, this`mapTiles, this`screen, mapTiles
      requires Valid()
      ensures WellFormed(g)
      ensures forall y, x :: 0 <= y < MAP_H && 0 <= x < MAP_W ==> g[y][x] == mapTiles[y, x]
    {
      var m := mapTiles;
      seq(MAP_H, (y: int) requires 0 <= y < MAP_H reads m =>
        seq(MAP_W, (x: int) requires 0 <= x < MAP_W reads m => m[y, x]))
    }

    /** The world as a value: the live slots and the map region. */
    ghost function State(): World
      reads this`entities, this`entityNum, this`mapTiles, this`screen, entities, mapTiles
      requires Valid()
    {
      World(entities[..entityNum], Region())
    }

    /** The program's globals before `main` runs: everything zeroed. */
    constructor ()
      ensures Valid() && fresh(entities) && fresh(mapTiles) && fresh(screen)
      ensures entityNum == 0 && playerEntity == 0 && !isQuitting
      ensures forall y, x :: 0 <= y < MAP_H && 0 <= x < MAP_W ==> mapTiles[y, x] == ZERO_TILE
      ensures forall y, x :: 0 <= y < SCREEN_H && 0 <= x < SCREEN_W ==> screen[y, x] == BLANK
      ensures Consistent(State())
    {
      entities := new Entity[CAPACITY](_ => NO_ENTITY);
      mapTiles := new MapTile[MAP_H, MAP_W]((_, _) => ZERO_TILE);
      screen := new ScreenTile[SCREEN_H, SCREEN_W]((_, _) => BLANK);
      entityNum := 0;
      playerEntity := 0;
      isQuitting := false;
    }

    /** `generate_map`, with `rolls` the values `rand()` returns to it. */
    method GenerateMap(rolls: seq<nat>)
      requires Valid() && |rolls| == MAP_W * MAP_H
      modifies mapTiles
      ensures Valid()
      ensures Region() == Generated(rolls)
    {
      var y := 0;
      while y < MAP_H
        invariant 0 <= y <= MAP_H
        invariant forall j, i :: 0 <= j < y && 0 <= i < MAP_W ==>
                    mapTiles[j, i] == TerrainFor(rolls[j * MAP_W + i])
      {
        var x := 0;
        while x < MAP_W
          invariant 0 <= x <= MAP_W
          invariant forall j, i :: 0 <= j < y && 0 <= i < MAP_W ==>
                      mapTiles[j, i] == TerrainFor(rolls[j * MAP_W + i])
          invariant forall i :: 0 <= i < x ==> mapTiles[y, i] == TerrainFor(rolls[y * MAP_W + i])
        {
          if rolls[y * MAP_W + x] % 10 == 0 {
            mapTiles[y, x] := WALL;
          } else {
            mapTiles[y, x] := FLOOR;
          }
          x := x + 1;
        }
        y := y + 1;
      }
      GridExt(Region(), Generated(rolls));
    }

    /** `spawn_entity(kind, pos)`: appends the entity, marks its tile and
        returns its handle, the new count. */
    method SpawnEntity(kind: EntityType, pos: Vec) returns (h: nat)
      requires Valid() && SpawnPre(State(), pos)
      modifies this`entityNum, entities, mapTiles
      ensures Valid()
      ensures State() == Spawned(old(State()), kind, pos)
      ensures h == entityNum == old(entityNum) + 1
    {
      ghost var w := State();
      entities[entityNum] := Entity(kind, pos);
      entityNum := entityNum + 1;
      mapTiles[pos.y, pos.x] := mapTiles[pos.y, pos.x].(entity := entityNum);
      h := entityNum;
      assert entities[..entityNum] == w.entities + [Entity(kind, pos)];
      GridExt(Region(), SetOccupant(w.grid, pos, |w.entities| + 1));
    }

    /** `spawn_player`: a human in the middle of the map. */
    method SpawnPlayer()
      requires Valid() && SpawnPre(State(), PLAYER_START)
      modifies this`entityNum, this`playerEntity, entities, mapTiles
      ensures Valid()
      ensures State() == Spawned(old(State()), HUMAN, PLAYER_START)
      ensures playerEntity == entityNum == old(entityNum) + 1
    {
      playerEntity := SpawnEntity(HUMAN, PLAYER_START);
    }

    /** `generate_map(); spawn_player();` on the zeroed globals. */
    method Start(rolls: seq<nat>)
      requires Valid() && entityNum == 0 && |rolls| == MAP_W * MAP_H
      modifies this`entityNum, this`playerEntity, entities, mapTiles
      ensures Valid()
      ensures State() == Initial(rolls) && playerEntity == 1
      ensures Consistent(State())
    {
      GenerateMap(rolls);
      SpawnPlayer();
      InitialConsistent(rolls);
    }

    /** `move_entity(id, off)`: clears the old tile, shifts the entity and marks
        the destination tile. */
    method MoveEntity(id: nat, off: Vec)
      requires Valid() && MovePre(State(), id, off)
      modifies entities, mapTiles
      ensures Valid()
      ensures State() == Moved(old(State()), id, off)
    {
      ghost var w := State();
      var entity := GetEntity(entities[..entityNum], id);
      var pos := entity.value.pos;
      mapTiles[pos.y, pos.x] := mapTiles[pos.y, pos.x].(entity := 0);
      entities[id - 1] := entities[id - 1].(pos := Vec(pos.x + off.x, pos.y + off.y));
      pos := entities[id - 1].pos;
      mapTiles[pos.y, pos.x] := mapTiles[pos.y, pos.x].(entity := id);
      assert entities[..entityNum] == Moved(w, id, off).entities;
      MovedGrid(w, id, off);
      GridExt(Region(), Moved(w, id, off).grid);
    }

    /** The body of `handle_input`'s polling loop, for one event. */
    method HandleEvent(e: Event)
      requires Valid()
      requires HandlePre(State(), playerEntity, e)
      modifies this`isQuitting, entities, mapTiles
      ensures Valid()
      ensures State() == Handled(old(State()), playerEntity, e)
      ensures isQuitting == (old(isQuitting) || e == Quit)
    {
      if e.Quit? {
        isQuitting := true;
      } else {
        match KeyOffset(e)
        case Some(off) => MoveEntity(playerEntity, off);
        case None =>
      }
    }

    /** `handle_input`: a quit event raises the quit flag; each arrow key moves
        the player one step; everything else is ignored. */
    method HandleInput(events: seq<Event>)
      requires Valid() && WalkPre(State(), playerEntity, events)
      modifies this`isQuitting, entities, mapTiles
      ensures Valid()
      ensures State() == Walk(old(State()), playerEntity, events)
      ensures isQuitting == (old(isQuitting) || Quit in events)
    {
      ghost var cur := State();
      ghost var target := Walk(cur, playerEntity, events);
      ghost var quitting := isQuitting;
      var i := 0;
      while i < |events|
        invariant 0 <= i <= |events|
        invariant Valid() && State() == cur
        invariant WalkPre(cur, playerEntity, events[i..])
        invariant Walk(cur, playerEntity, events[i..]) == target
        invariant isQuitting == (quitting || Quit in events[..i])
      {
        WalkUnfold(cur, playerEntity, events, i);
        QuitInPrefix(events, i);
        HandleEvent(events[i]);
        cur := Handled(cur, playerEntity, events[i]);
        i := i + 1;
      }
      assert events[..i] == events;
    }

    /** The `memset` of the screen buffer. */
    method ClearScreen()
      requires Valid()
      modifies screen
      ensures forall y, x :: 0 <= y < SCREEN_H && 0 <= x < SCREEN_W ==> screen[y, x] == BLANK
    {
      forall y, x | 0 <= y < SCREEN_H && 0 <= x < SCREEN_W {
        screen[y, x] := BLANK;
      }
    }

    /** `render_map`: the 31x31 window around the player, each cell showing the
        occupant's tile where there is one and the map tile otherwise; cells
        outside the window keep their contents. */
    method RenderMap()
      requires Valid() && FrameReady(State(), playerEntity)
      modifies screen
      ensures forall y, x :: 0 <= y < SCREEN_H && 0 <= x < SCREEN_W ==>
                screen[y, x] ==
                  if InViewport(x, y)
                  then Resolve(State(), ViewedPos(entities[playerEntity - 1].pos, x, y))
                  else old(screen[y, x])
    {
      ghost var w := State();
      ghost var pp := entities[playerEntity - 1].pos;
      var dy: int := -VIEW_RADIUS;
      while dy <= VIEW_RADIUS
        invariant -VIEW_RADIUS <= dy <= VIEW_RADIUS + 1
        invariant forall y, x :: 0 <= y < SCREEN_H && 0 <= x < SCREEN_W ==>
                    screen[y, x] ==
                      if InViewport(x, y) && y < SCREEN_H / 2 + dy
                      then Resolve(w, ViewedPos(pp, x, y))
                      else old(screen[y, x])
      {
        var dx: int := -VIEW_RADIUS;
        while dx <= VIEW_RADIUS
          invariant -VIEW_RADIUS <= dx <= VIEW_RADIUS + 1
          invariant forall y, x :: 0 <= y < SCREEN_H && 0 <= x < SCREEN_W ==>
                      screen[y, x] ==
                        if InViewport(x, y) &&
                           (y < SCREEN_H / 2 + dy || (y == SCREEN_H / 2 + dy && x < SCREEN_W / 2 + dx))
                        then Resolve(w, ViewedPos(pp, x, y))
                        else old(screen[y, x])
        {
          var screenPos := Vec(SCREEN_W / 2 + dx, SCREEN_H / 2 + dy);
          var playerPos := GetEntity(entities[..entityNum], playerEntity).value.pos;
          var p := Vec(playerPos.x + dx, playerPos.y + dy);
          // read_map
          var mapTile := if !IsPosValid(p) then BORDER else mapTiles[p.y, p.x];
          var tile := mapTile.tile;
          if mapTile.entity != 0 {
            var entity := GetEntity(entities[..entityNum], mapTile.entity);
            tile := entity.value.kind.tile;
          }
          assert p == ViewedPos(pp, screenPos.x, screenPos.y);
          assert tile == Resolve(w, p);
          screen[screenPos.y, screenPos.x] := tile;
          dx := dx + 1;
        }
        dy := dy + 1;
      }
    }

    /** The frame step of the main loop: clear the screen buffer, render the
        window, then draw every cell. */
    method DrawFrame() returns (cmds: seq<Blit.DrawCmd>)
      requires Valid() && FrameReady(State(), playerEntity)
      modifies screen
      ensures forall y, x :: 0 <= y < SCREEN_H && 0 <= x < SCREEN_W ==>
                screen[y, x] == FrameCell(State(), entities[playerEntity - 1].pos, x, y)
      ensures |cmds| == SCREEN_H * SCREEN_W
      ensures forall i :: 0 <= i < |cmds| ==>
                cmds[i] == Blit.CellDraw(screen[i / SCREEN_W, i % SCREEN_W], i % SCREEN_W, i / SCREEN_W)
    {
      ClearScreen();
      RenderMap();
      cmds := Blit.BlitScreen(screen);
    }

    /** One iteration of the main loop: input, then the frame. */
    method Tick(events: seq<Event>) returns (cmds: seq<Blit.DrawCmd>)
      requires Valid() && WalkPre(State(), playerEntity, events)
      requires FrameReady(Walk(State(), playerEntity, events), playerEntity)
      modifies this`isQuitting, entities, mapTiles, screen
      ensures Valid()
      ensures State() == Walk(old(State()), playerEntity, events)
      ensures isQuitting == (old(isQuitting) || Quit in events)
      ensures forall y, x :: 0 <= y < SCREEN_H && 0 <= x < SCREEN_W ==>
                screen[y, x] == FrameCell(State(), entities[playerEntity - 1].pos, x, y)
      ensures |cmds| == SCREEN_H * SCREEN_W
      ensures forall i :: 0 <= i < |cmds| ==>
                cmds[i] == Blit.CellDraw(screen[i / SCREEN_W, i % SCREEN_W], i % SCREEN_W, i / SCREEN_W)
    {
      HandleInput(events);
      cmds := DrawFrame();
    }
  }
}
