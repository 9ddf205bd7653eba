module TilemapModel {
  import opened Geometry
  import opened Ordered

  datatype Tile = Tile(value: int, walkable: bool)

  /** A loaded map: `size.y` rows of `size.x` tiles. */
  datatype RawTilemap = Tilemap(size: Cell, tiles: seq<seq<Tile>>) {

    predicate Valid() {
      && size.x >= 0 && |tiles| == size.y
      && forall y :: 0 <= y < |tiles| ==> |tiles[y]| == size.x
    }

    function GetTileAt(pos: Cell): Option<Tile>
      requires Valid()
    {
      if pos.x < 0 || pos.x >= size.x || pos.y < 0 || pos.y >= size.y then None
      else Some(tiles[pos.y][pos.x])
    }
  }

  type Tilemap = m: RawTilemap | m.Valid() witness Tilemap(Cell(0, 0), [])
}
