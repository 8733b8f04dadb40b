/** Building the deck: every variation row of every tile definition of the
    catalog's "tiles" section becomes one face-down tile, added to the
    deck's children in spawn order. */
module Deck {
  import opened Catalog
  import opened Expansion

  /** The inner loop of `spawn_all_tiles`: each row of one definition, in
      order, expanded with the given face. */
  method SpawnRows(name: string, tile: TileJson, faceUp: bool) returns (r: Result<seq<TileInstance>>)
    ensures r == ExpandRows(name, tile, tile.variations, faceUp)
  {
    var spawned: seq<TileInstance> := [];
    var v := 0;
    while v < |tile.variations|
      invariant 0 <= v <= |tile.variations|
      invariant ExpandRows(name, tile, tile.variations[..v], faceUp) == Success(spawned)
    {
      var t := ExpandVariation(name, tile, tile.variations[v], faceUp);
      assert tile.variations[..v + 1][..v] == tile.variations[..v];
      if t.Failure? {
        ExpandRowsPrefixFailure(name, tile, tile.variations, v + 1, faceUp);
        return Failure(t.error);
      }
      spawned := spawned + [t.value];
      v := v + 1;
    }
    assert tile.variations[..v] == tile.variations;
    r := Success(spawned);
  }

  /** The loop of `spawn_all_tiles` over the definitions, in the order
      given: each definition's rows expanded face down, appended in turn. */
  method SpawnEntries(entries: seq<(string, TileJson)>) returns (deck: Result<seq<TileInstance>>)
    ensures deck == ExpandCatalog(entries, false)
  {
    var tiles: seq<TileInstance> := [];
    var e := 0;
    while e < |entries|
      invariant 0 <= e <= |entries|
      invariant ExpandCatalog(entries[..e], false) == Success(tiles)
    {
      var (name, tile) := entries[e];
      assert entries[..e + 1][..e] == entries[..e];
      var rows := SpawnRows(name, tile, false);
      if rows.Failure? {
        ExpandCatalogPrefixFailure(entries, e + 1, false);
        return Failure(rows.error);
      }
      tiles := tiles + rows.value;
      e := e + 1;
    }
    assert entries[..e] == entries;
    deck := Success(tiles);
  }

  /** `spawn_all_tiles`, without the engine: filters the catalog's "tiles"
      section with `json_to_struct`, walks the resulting map in whatever
      order it yields its pairs, expands each definition's rows face down
      in order and appends the tiles to the deck. So the deck is the
      face-down expansion of the filtered map, for one iteration order of
      it; a short row anywhere aborts the whole system, as the source's
      index panic does. */
  method SpawnAllTiles(root: Json, decode: Json -> Option<TileJson>) returns (deck: Result<seq<TileInstance>>)
    ensures exists entries :: (Enumerates(entries, TilesMap(root, "tiles", decode)) &&
      deck == ExpandCatalog(entries, false))
  {
    var tilesMap := JsonToStruct(root, "tiles", decode);
    var entries := Entries(tilesMap);
    deck := SpawnEntries(entries);
  }
}
