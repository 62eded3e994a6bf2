/** What right-clicking a cell with a building item does to the terrain. */
module Placement {
  import opened Util
  import opened Kinds

  /** A use either replaces the cell's tile or puts a decoration on it. */
  datatype Change = SetTile(tile: Kind) | Build(decoration: Kind)

  /** How deep a water tile is (0 for dry land). */
  function Depth(k: Kind): nat
  {
    if k == WaterD then 3 else if k == WaterM then 2 else if k == Water then 1 else 0
  }

  /** The change using `item` on a cell of `tile` makes, if any: sand and dirt
      fill water one level (shallow water becomes sand or mud) and cover rock;
      rubble paves rock and walls soil; floor planks cover rock; wall planks go
      on mud and grass. */
  function Fill(item: Kind, tile: Kind): Option<Change>
  {
    if item == SandDrop || item == DirtDrop then
      if tile in Rock || tile == Water then Some(SetTile(if item == SandDrop then Sand else Mud))
      else if tile == WaterM then Some(SetTile(Water))
      else if tile == WaterD then Some(SetTile(WaterM))
      else None
    else if item == Rubble then
      if tile in Rock then Some(SetTile(Tile))
      else if tile in {Mud, Grass, Sand} then Some(Build(RockWall))
      else None
    else if item == PlankFDrop then
      if tile in Rock then Some(SetTile(PlankF)) else None
    else if item == PlankWDrop then
      if tile in {Mud, Grass} then Some(Build(PlankW)) else None
    else None
  }

  /** Filling water makes it exactly one level shallower, and nothing ever
      deepens water or floods dry land. */
  lemma FillShallows(item: Kind, tile: Kind)
    requires Fill(item, tile).Some? && Fill(item, tile).value.SetTile?
    ensures tile in Wet ==> Depth(Fill(item, tile).value.tile) == Depth(tile) - 1
    ensures Fill(item, tile).value.tile !in {WaterD, WaterM} || tile in Wet
    ensures tile !in Wet ==> Fill(item, tile).value.tile !in Wet
  {
  }

  /** Building items only act on rock, water or soil; anything else (a floor,
      a plank, stone heights) refuses them. */
  lemma FillNeedsGround(item: Kind, tile: Kind)
    requires Fill(item, tile).Some?
    ensures tile in Rock || tile in Wet || tile in {Mud, Grass, Sand}
    ensures Fill(item, tile).value.Build? ==> tile in {Mud, Grass, Sand} && tile in Placeable
  {
  }
}
