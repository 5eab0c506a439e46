/** Map tiles. The tile table itself (tile_types.py) is not part of this model: each kind
    carries the two flags the core reads, `walkable` and `transparent`. */
module Tiles {

  datatype TileKind = Wall | Floor | DownStairs | UpStairs | HiddenPassage

  datatype Tile = Tile(kind: TileKind, walkable: bool, transparent: bool)

  const WallTile := Tile(Wall, false, false)
  const FloorTile := Tile(Floor, true, true)
  const DownStairsTile := Tile(DownStairs, true, true)
  const UpStairsTile := Tile(UpStairs, true, true)
  /** The hidden passage looks and behaves like rock until it is searched for. */
  const HiddenPassageTile := Tile(HiddenPassage, false, false)
}
