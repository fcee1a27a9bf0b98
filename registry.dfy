/**
  The entity table: `Entity_Type` prototypes, `Entity` records and the
  handle lookup `get_entity`. Handles are 1-based; handle `h` names slot
  `h - 1` and 0 names no entity. Here the table is given by its live prefix,
  the first `entity_num` slots.
*/
module Registry {
  import opened Wrappers
  import opened Tiles
  import opened WorldMap

  /** Number of slots of the entity table. */
  const CAPACITY: nat := 0x1000

  /** A shared, read-only prototype: a name and the tile it is drawn with. */
  datatype EntityType = EntityType(name: string, tile: ScreenTile)

  /** An entity: its prototype and where it stands. */
  datatype Entity = Entity(kind: EntityType, pos: Vec)

  /** The player's prototype: a yellow 'H' on black. */
  const HUMAN := EntityType("Human", Tile('H' as u8, YELLOW, BLACK))

  /** `get_entity`: absent for the null handle and for every handle past the
      live count, otherwise the entity in slot `id - 1`. */
  function GetEntity(live: seq<Entity>, id: nat): (r: Option<Entity>)
    ensures r.Some? <==> 1 <= id <= |live|
    ensures r.Some? ==> r.value == live[id - 1]
  {
    if id == 0 then None
    else if |live| <= id - 1 then None
    else Some(live[id - 1])
  }
}
