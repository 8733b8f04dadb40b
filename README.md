# carc_safari tiles, in Dafny

A model of the tile core of carc_safari, a Carcassonne-style safari board
game built on the Bevy engine (`src/tile.rs`). The model covers:

- the one-letter codes of the catalog: sides (`Sides::from_string`,
  `Sides::to_index`) and animals (`Animal::from_string`), module `Codes`;
- the lenient catalog filter `TileJson::json_to_struct`, which keeps the
  entries of one section of the JSON catalog that deserialise and skips the
  others, module `Catalog`;
- the expansion of one variation row of a tile definition into a concrete
  tile: its trail and bush groups, the animal each one gets from the row,
  and its four-slot edge array of lands (bush over trail over savanna),
  module `Expansion`;
- the deck builder `spawn_all_tiles`, module `Deck`;
- the coordinate mapper `pos_to_matrix_index`, as written and as intended,
  module `Coords`;
- the start-board builder `spawn_starting_tiles`, which writes each
  starting tile into an n-by-n board, module `Board`.

The Bevy side of the program is not modelled. A spawned entity is a
`TileInstance` value: name, side-up flag, baobab marker, trail and bush
components, and the edge array. The deck's children are a sequence of
these in spawn order. The board is an `array2<Option<TileId>>`, where a
`TileId` is a starting tile's position in spawn order. The index panic a
short variation row causes (`var[i]`) is the `Failure(IndexOutOfBounds(..))`
result; it aborts the whole system, as the panic does.

## Model

| member | source | states |
|---|---|---|
| Codes.SideFromString | src/tile.rs:18-25 | "N", "E" and "S" give their sides; every other string, including "W" and unknown codes, gives West (each case as an if-and-only-if) |
| Codes.ToIndex | src/tile.rs:27-34 | every side's slot lies in the four-slot edge array, numbered North 0, East 1, South 2, West 3 |
| Codes.SideAt | src/tile.rs:27-34 | each slot 0..3 belongs to a side whose index is that slot |
| Codes.ToIndexInjective | src/tile.rs:27-34 | distinct sides own distinct slots, and SideAt inverts ToIndex |
| Codes.SideCodeRoundTrip | src/tile.rs:18-25 | every side is reached by parsing its catalog code |
| Codes.AnimalFromString | src/tile.rs:47-56 | "M", "E", "G", "L" and "Z" give their animals; every other string gives no animal (each case as an if-and-only-if) |
| Codes.AnimalCodeRoundTrip | src/tile.rs:47-56 | every animal, no animal included, is reached by parsing its code |
| Catalog.Get | src/tile.rs:124 | a key is found exactly in an object that has it, and yields that field |
| Catalog.Section | src/tile.rs:124-125 | a section is taken exactly when the key exists and its value is an object |
| Catalog.ZipToMap | src/tile.rs:136 | collecting the zipped names and tiles gives a map keyed by exactly the names pushed, each name mapped to the tile paired with its last occurrence |
| Catalog.CollectDecodable | src/tile.rs:121-132 | the loop pushes each entry that deserialises exactly once, with its decoded definition, and skips the others |
| Catalog.DecodableCount | src/tile.rs:127-132 | each entry of a section is kept or skipped, never both, so kept plus skipped equals the section's size |
| Catalog.JsonToStruct | src/tile.rs:117-137 | a missing or non-object section gives the empty map; otherwise the keys are exactly the entries that deserialise, each mapped to its own decoded definition, and the map has one entry fewer per malformed entry |
| Catalog.Entries | src/tile.rs:160 | iterating a map yields each of its pairs exactly once, in some order, as many as the map has |
| Coords.UsizeAsI32 | src/tile.rs:141 | `n as i32` is the i32 congruent to n modulo 2^32, and n itself when n fits |
| Coords.I32AsUsize | src/tile.rs:144-145 | `v as usize` is the usize congruent to v modulo 2^64: v itself when non-negative, above the i32 range when negative |
| Coords.HalfTowardZero | src/tile.rs:141 | i32 division by two rounds toward zero on both signs: twice the result is v or one step closer to zero than v |
| Coords.CenterAsWritten | src/tile.rs:141 | the centre `n as i32 / 2` is an i32, and is n/2 whenever n fits an i32 |
| Coords.Clamp | src/tile.rs:147-148 | `clamp(lo, hi)` lies in [lo, hi], keeps a value inside, and sends a value below or above to lo or hi |
| Coords.PosToMatrixIndexAsWritten | src/tile.rs:140-151 | the source's mapper, with i32 and 64-bit usize casts; its result always lies on the n-by-n board |
| Coords.AsWrittenExactInRange | src/tile.rs:140-151 | for n ≤ 2^31 - 1, inside the board the source's mapper returns row n/2 - y and column x + n/2, with no overflow |
| Coords.AsWrittenWrapsAtI32Bound | src/tile.rs:141-148 | at n = 2^31 `n as i32` wraps, and the origin goes to the far corner (2^31 - 1, 2^31 - 1) instead of the centre (2^30, 2^30) |
| Coords.AsWrittenNegativeGoesToFarEdge | src/tile.rs:144-148 | for n ≤ 2^64 - 2^31, a negative sum wraps on the usize cast and clamps to n-1, the far edge |
| Coords.AsWrittenCorners | src/tile.rs:285-303 | the four corner cases the source's tests pin for n = 72 |
| Coords.AsWrittenLeftOfBoard | src/tile.rs:144-148 | the coordinate (-37, 0) on a 72 board goes to column 71 as written and to column 0 as intended |
| Coords.PosToMatrixIndex | src/tile.rs:140-151 | the intended mapper: on the board, row n/2 - y and column x + n/2; off the board, the nearest edge on each axis |
| Coords.PosToMatrixIndexMonotonic | src/tile.rs:140-151 | moving right never decreases the column, and moving up never increases the row |
| Coords.PosToMatrixIndexInjectiveOnBoard | src/tile.rs:140-151 | on the board, two coordinates share a cell exactly when they are equal |
| Coords.AsWrittenAgreesWithIntended | src/tile.rs:140-151 | for n ≤ 2^31 - 1, the two mappers agree when both sums are non-negative, and everywhere when n = 1 |
| Expansion.ListedInMeaning | src/tile.rs:178-184 | the recursive "some group lists this side" holds exactly when some group's codes parse to the side |
| Expansion.EdgeLandMeaning | src/tile.rs:176-198 | an edge is Bush exactly when a bush group lists its side; Trail exactly when no bush group and some trail group does; Savanna exactly when no group does |
| Expansion.PaintAt | src/tile.rs:180-184 | painting one group's sides changes exactly the slots of the sides it lists |
| Expansion.PaintGroupsAt | src/tile.rs:178-198 | after painting all groups, a slot holds the group land exactly when some group lists its side, and is unchanged otherwise |
| Expansion.PaintedEdgeAt | src/tile.rs:176-198 | painting trails and then bushes gives each side the land of the bush-over-trail-over-savanna rule |
| Expansion.PaintedEdgesMeaning | src/tile.rs:176-198 | the edge array the source's overwriting builds equals the declarative edge array |
| Expansion.PaintSides | src/tile.rs:179-184 | the inner loop parses the group's codes in order and leaves the edge array as painting them specifies |
| Expansion.WalkTrails | src/tile.rs:175-190 | the trail walk succeeds exactly when the row has a code per trail group; trail g gets code g's animal; a failure indexes the row at its length |
| Expansion.WalkBushes | src/tile.rs:192-209 | the bush walk succeeds exactly when the row has a code per bush group after the trails; each bush always gets Some animal and its birds; the counter moves on by one per bush |
| Expansion.ExpandVariation | src/tile.rs:162-213 | expanding one row equals the declarative expansion: failure at the row's length exactly for a short row, otherwise the instance with positional animals and the rule's edges |
| Expansion.ExpandRowsSuccess | src/tile.rs:162-213 | a definition's rows expand exactly when none is short, into one instance per row, in row order |
| Expansion.ExpandRowsFirstFailure | src/tile.rs:175-208 | when a definition's rows fail, the error is that of the first short row |
| Expansion.ExpandRowsPrefixFailure | src/tile.rs:162-213 | once an early row fails, the later rows do not change the outcome |
| Expansion.ExpandCatalogPrefixFailure | src/tile.rs:160-214 | once an early definition fails, the later definitions do not change the outcome |
| Expansion.ExpandCatalogMeaning | src/tile.rs:160-214 | a catalog expands exactly when no row is short, into one instance per row of the catalog, each with the given face and a catalog definition's name and baobab flag |
| Deck.SpawnRows | src/tile.rs:162-213 | the row loop of one definition gives that definition's row expansion |
| Deck.SpawnEntries | src/tile.rs:160-214 | the loop over the definitions, in the order given, gives the catalog's face-down expansion |
| Deck.SpawnAllTiles | src/tile.rs:153-215 | the deck is the face-down expansion of the map `json_to_struct` makes of the "tiles" section, for one iteration order of that map |
| Board.StartCoord | src/tile.rs:268-272 | "CSS1" takes coordinate (-1, 0), "CSS2" takes (0, 0), and every other name takes (1, 0) |
| Board.StartCellMatchesSource | src/tile.rs:268-272 | for each starting name and every board size that fits an i32, the source's mapper picks the same cell as the intended one |
| Board.StartCellsDistinct | src/tile.rs:268-272 | from n = 3 up, CSS1, CSS2 and any other name land left of centre, at the centre and right of centre in the middle row |
| Board.SmallBoardCollision | src/tile.rs:268-272 | on a 2-by-2 board CSS2 and any name other than CSS1 share cell (1, 1) |
| Board.LastWriter | src/tile.rs:274 | a cell holds nothing exactly when no write hit it, and otherwise the last write that hit it |
| Board.Place | src/tile.rs:268-274 | writing the next tile into the cell the source's mapper picks keeps every cell equal to its last writer |
| Board.SpawnStartingRows | src/tile.rs:224-275 | one starting definition's rows expand face up as specified, and every board cell then holds its last writer |
| Board.SpawnStartingEntries | src/tile.rs:222-276 | on an empty board, the definitions' rows expand face up as specified, and every cell then holds the last tile written there, or nothing |
| Board.SpawnStartingTiles | src/tile.rs:217-279 | the board is n by n with n = deck count + size of the map `json_to_struct` makes of "starting_tile"; the tiles are that map's face-up expansion for one iteration order; every cell holds the last tile written there, or nothing |

## Left out

- The Bevy engine: `Commands`, entities, sprites, textures, transforms, visibility and `push_children` are not modelled. A spawned tile is a `TileInstance` value and the deck is the sequence of them.
- Component replacement: Bevy's `insert` replaces a component of the same type, so a real entity keeps only its last `Trail` and last `Bush`. The model keeps every group, which is what the loop computes.
- `TileConnections`: the source computes the edge array but never attaches it to the entity. The model keeps it in the instance.
- `println!` output (tile names, rows, the centre) is left out.
- `read_json_file` in `src/utils.rs` (file I/O and JSON parsing) is not part of this model. The parsed catalog is the `root: Json` parameter.
- The serde deserialiser `TileJson::from_json` is the `decode` parameter. Its acceptance rules are not modelled.
- Iteration order: the order of a JSON object's entries and of a `HashMap` is not modelled. `JsonToStruct` returns a map, so its order does not matter. The spawn loops walk the map in an order it does not fix (`Catalog.Entries`), so their results hold for every order.
- The entity count `query.iter().count()` is the `deckCount` parameter.
- `main.rs` and the system schedule are left out. `spawn_starting_tiles` is not registered there.
- Coords.PosToMatrixIndexAsWritten: requires that the two i32 sums do not overflow (a debug build panics there) and that n ≥ 1 (`n - 1` underflows for n = 0). It assumes a 64-bit usize.
- Board.SpawnStartingTiles: requires n ≤ 2^31 - 1, and so do `Board.SpawnStartingEntries`, `Board.SpawnStartingRows` and `Board.Place`. A larger n makes `n as i32` wrap (`Coords.AsWrittenWrapsAtI32Bound`), and an n×n allocation that large cannot exist anyway. Under this bound `Board.StartCellMatchesSource` shows the source's mapper picks each starting tile's `StartCell`, which `Place` relies on.
- A more forgiving program would skip short variation rows and report board collisions. This code does neither: a short row panics, and a later write silently overwrites a cell. The model follows the code.

## Findings

| source | as written | input that shows it | evidently intended | confidence | as-written member | corrected member |
|---|---|---|---|---|---|---|
| src/tile.rs:144-148 | the sums are cast to usize before `clamp(0, n-1)`, so a negative sum wraps to a huge value and clamps to n-1 | coordinate (-37, 0) with n = 72 gives (36, 71) | clamp as signed integers, so an off-board coordinate lands on the nearest edge: (36, 0) | not executed | Coords.PosToMatrixIndexAsWritten, Coords.AsWrittenLeftOfBoard | Coords.PosToMatrixIndex |
