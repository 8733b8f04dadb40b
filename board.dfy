/** Assembling the initial board: every variation row of every definition of
    the catalog's "starting_tile" section becomes one face-up tile, and each
    is written into the board cell its definition's name selects. */
module Board {
  import opened Catalog
  import opened Expansion
  import opened Coords

  /** A placed tile, named by its position in the sequence of starting
      tiles in spawn order. */
  type TileId = nat

  /** The board coordinate the source picks for a starting tile by name. */
  function StartCoord(name: string): (r: (int, int))
    ensures name == "CSS1" ==> r == (-1, 0)
    ensures name == "CSS2" ==> r == (0, 0)
    ensures name != "CSS1" && name != "CSS2" ==> r == (1, 0)
  {
    match name
    case "CSS1" => (-1, 0)
    case "CSS2" => (0, 0)
    case _ => (1, 0)
  }

  /** The board cell of a starting tile on an n-by-n board. */
  function StartCell(name: string, n: nat): (nat, nat)
    requires n >= 1
  {
    PosToMatrixIndex(StartCoord(name).0, StartCoord(name).1, n)
  }

  /** For the three starting coordinates, the mapper as the source writes
      it picks the same cell as the intended one, on every board whose size
      fits an i32: the board is exactly the source's. */
  lemma StartCellMatchesSource(name: string, n: int)
    requires 1 <= n <= I32_MAX
    ensures NoOverflow(StartCoord(name).0, StartCoord(name).1, n)
    ensures PosToMatrixIndexAsWritten(StartCoord(name).0, StartCoord(name).1, n) == StartCell(name, n)
  {
    AsWrittenAgreesWithIntended(StartCoord(name).0, StartCoord(name).1, n);
  }

  /** From n = 3 up the three kinds of starting tile land in three distinct
      cells of the middle row: left of centre, the centre, right of centre. */
  lemma StartCellsDistinct(other: string, n: nat)
    requires other != "CSS1" && other != "CSS2" && n >= 3
    ensures StartCell("CSS1", n) == (n / 2, n / 2 - 1)
    ensures StartCell("CSS2", n) == (n / 2, n / 2)
    ensures StartCell(other, n) == (n / 2, n / 2 + 1)
  {
    assert StartCoord(other) == (1, 0);
  }

  /** On a two-by-two board "CSS2" and every other name not "CSS1" clamp to
      the same cell; nothing detects the collision. */
  lemma SmallBoardCollision(other: string)
    requires other != "CSS1" && other != "CSS2"
    ensures StartCell("CSS2", 2) == StartCell(other, 2) == (1, 1)
  {
    assert StartCoord(other) == (1, 0);
  }

  /** The cells written, one per starting tile, in spawn order. */
  function Cells(tiles: seq<TileInstance>, n: nat): (r: seq<(nat, nat)>)
    requires n >= 1
  {
    seq(|tiles|, k requires 0 <= k < |tiles| => StartCell(tiles[k].name, n))
  }

  /** The tile that ends up in cell `c` after the writes `cells`: the last
      one written there, or none. */
  function LastWriter(cells: seq<(nat, nat)>, c: (nat, nat)): (r: Option<TileId>)
    ensures r.None? <==> forall k :: 0 <= k < |cells| ==> cells[k] != c
    ensures r.Some? ==> r.value < |cells| && cells[r.value] == c
    ensures r.Some? ==> forall k :: r.value < k < |cells| ==> cells[k] != c
  {
    if cells == [] then None
    else if cells[|cells| - 1] == c then Some(|cells| - 1)
    else LastWriter(cells[..|cells| - 1], c)
  }

  /** Every cell of the board holds the last of the `placed` tiles written
      there, or nothing. */
  ghost predicate Holds(board: array2<Option<TileId>>, placed: seq<TileInstance>)
    requires board.Length0 >= 1
    reads board
  {
    forall a, b :: 0 <= a < board.Length0 && 0 <= b < board.Length1 ==>
      board[a, b] == LastWriter(Cells(placed, board.Length0), (a, b))
  }

  /** The write `board[i][j] = Some(id)` of the next starting tile `t`,
      into the cell the source's mapper picks for its name; by
      StartCellMatchesSource that is the tile's StartCell on every board
      whose side fits an i32. */
  method Place(board: array2<Option<TileId>>, ghost placed: seq<TileInstance>, t: TileInstance, id: TileId)
    requires board.Length0 == board.Length1 >= 1 && board.Length0 <= I32_MAX && id == |placed|
    requires Holds(board, placed)
    modifies board
    ensures Holds(board, placed + [t])
  {
    var n := board.Length0;
    var coord := StartCoord(t.name);
    StartCellMatchesSource(t.name, n);
    var (i, j) := PosToMatrixIndexAsWritten(coord.0, coord.1, n);
    ghost var cells := Cells(placed, n);
    board[i, j] := Some(id);
    assert Cells(placed + [t], n) == cells + [(i, j)];
    assert (cells + [(i, j)])[..|cells|] == cells;
  }

  /** The inner loop of `spawn_starting_tiles`: each row of one starting
      definition, in order, expanded face up and written onto the board
      after the `placed` tiles, the first of them getting id `firstId`. */
  method SpawnStartingRows(board: array2<Option<TileId>>, ghost placed: seq<TileInstance>, firstId: TileId,
                           name: string, tile: TileJson)
    returns (r: Result<seq<TileInstance>>)
    requires board.Length0 == board.Length1 >= 1 && board.Length0 <= I32_MAX && firstId == |placed|
    requires Holds(board, placed)
    modifies board
    ensures r == ExpandRows(name, tile, tile.variations, true)
    ensures r.Success? ==> Holds(board, placed + r.value)
  {
    var spawned: seq<TileInstance> := [];
    assert placed + spawned == placed;
    var v := 0;
    while v < |tile.variations|
      invariant 0 <= v <= |tile.variations|
      invariant ExpandRows(name, tile, tile.variations[..v], true) == Success(spawned)
      invariant Holds(board, placed + spawned)
    {
      var t := ExpandVariation(name, tile, tile.variations[v], true);
      assert tile.variations[..v + 1][..v] == tile.variations[..v];
      if t.Failure? {
        ExpandRowsPrefixFailure(name, tile, tile.variations, v + 1, true);
        return Failure(t.error);
      }
      Place(board, placed + spawned, t.value, firstId + |spawned|);
      assert placed + spawned + [t.value] == placed + (spawned + [t.value]);
      spawned := spawned + [t.value];
      v := v + 1;
    }
    assert tile.variations[..v] == tile.variations;
    r := Success(spawned);
  }

  /** The loop of `spawn_starting_tiles` over the definitions, in the order
      given, onto an empty square board with room for them: every row is
      expanded face up and written into its cell. */
  method SpawnStartingEntries(board: array2<Option<TileId>>, entries: seq<(string, TileJson)>)
    returns (tiles: Result<seq<TileInstance>>)
    requires board.Length0 == board.Length1 >= |entries| && board.Length0 <= I32_MAX
    requires forall a, b :: 0 <= a < board.Length0 && 0 <= b < board.Length1 ==> board[a, b].None?
    modifies board
    ensures tiles == ExpandCatalog(entries, true)
    ensures tiles.Success? ==>
      forall a, b :: 0 <= a < board.Length0 && 0 <= b < board.Length1 ==>
        board[a, b] == LastWriter(Cells(tiles.value, board.Length0), (a, b))
  {
    var n := board.Length0;
    var placed: seq<TileInstance> := [];
    var e := 0;
    while e < |entries|
      invariant 0 <= e <= |entries|
      invariant ExpandCatalog(entries[..e], true) == Success(placed)
      invariant n >= 1 ==> Holds(board, placed)
    {
      var (name, tile) := entries[e];
      assert entries[..e + 1][..e] == entries[..e];
      var rows := SpawnStartingRows(board, placed, |placed|, name, tile);
      if rows.Failure? {
        ExpandCatalogPrefixFailure(entries, e + 1, true);
        return Failure(rows.error);
      }
      placed := placed + rows.value;
      e := e + 1;
    }
    assert entries[..e] == entries;
    tiles := Success(placed);
  }

  /** `spawn_starting_tiles`, without the engine: filters the catalog's
      "starting_tile" section with `json_to_struct`; the board has side
      n = deckCount + the size of that map and starts all empty; the map is
      walked in whatever order it yields its pairs, every row of every
      definition is expanded face up and written into the cell of its
      definition's name, a later write replacing an earlier one. So each
      cell holds the last tile written there, and a cell nobody writes
      stays empty. A short row aborts the whole system, as the source's
      index panic does. `deckCount` is the engine's count of deck
      entities. */
  method SpawnStartingTiles(root: Json, decode: Json -> Option<TileJson>, deckCount: nat)
    returns (tiles: Result<seq<TileInstance>>, board: array2<Option<TileId>>)
    requires deckCount + |TilesMap(root, "starting_tile", decode)| <= I32_MAX
    ensures board.Length0 == deckCount + |TilesMap(root, "starting_tile", decode)|
    ensures board.Length1 == board.Length0
    ensures exists entries :: (Enumerates(entries, TilesMap(root, "starting_tile", decode)) &&
      tiles == ExpandCatalog(entries, true))
    ensures tiles.Success? ==>
      forall a, b :: 0 <= a < board.Length0 && 0 <= b < board.Length1 ==>
        board[a, b] == LastWriter(Cells(tiles.value, board.Length0), (a, b))
  {
    var tilesMap := JsonToStruct(root, "starting_tile", decode);
    var entries := Entries(tilesMap);
    var n := deckCount + |tilesMap|;
    board := new Option<TileId>[n, n]((_, _) => None);
    tiles := SpawnStartingEntries(board, entries);
  }
}
