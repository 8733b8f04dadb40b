/** Variation expansion: each variation row of a tile definition becomes one
    concrete tile, with its trail and bush groups, the animals the row
    assigns to them and the land on each of its four edges. The source
    repeats this loop body in `spawn_all_tiles` and `spawn_starting_tiles`;
    here it is the one method `ExpandVariation`, which both spawn loops
    (`Deck.SpawnAllTiles`, `Board.SpawnStartingTiles`) call. */
module Expansion {
  import opened Codes
  import opened Catalog

  /** The panic of an out-of-range index into a variation row. */
  datatype ExpandError = IndexOutOfBounds(index: nat, len: nat)

  datatype Result<T> = Success(value: T) | Failure(error: ExpandError)

  /** A trail group of a concrete tile: its sides and its animal. */
  datatype TrailFeature = TrailFeature(sides: seq<Side>, animal: Animal)

  /** A bush group of a concrete tile: its sides, its animal and its birds. */
  datatype BushFeature = BushFeature(sides: seq<Side>, animal: Option<Animal>, birds: u32)

  /** A concrete tile: what the source attaches to a spawned entity (name,
      side-up flag, baobab marker, trail and bush components), plus the
      four-slot edge array it computes, indexed by ToIndex. */
  datatype TileInstance = TileInstance(
    name: string,
    faceUp: bool,
    baobab: bool,
    trails: seq<TrailFeature>,
    bushes: seq<BushFeature>,
    connections: seq<Land>)

  /** The side codes of a group, parsed one by one. */
  function ParseSides(codes: seq<string>): seq<Side>
  {
    if codes == [] then []
    else ParseSides(codes[..|codes| - 1]) + [SideFromString(codes[|codes| - 1])]
  }

  /** The side codes of each bush group, in order. */
  function BushSides(bushes: seq<BushJson>): seq<seq<string>>
  {
    seq(|bushes|, m requires 0 <= m < |bushes| => bushes[m].sides)
  }

  /** Number of animal codes a variation row must supply: one per trail
      group, then one per bush group. */
  function Slots(tile: TileJson): nat
  {
    |tile.trails| + |tile.bushes|
  }

  /** Some group of `groups` lists side `s` (see ListedInMeaning). */
  predicate ListedIn(groups: seq<seq<string>>, s: Side)
  {
    groups != [] && (ListedIn(groups[..|groups| - 1], s) || s in ParseSides(groups[|groups| - 1]))
  }

  /** ListedIn holds exactly when some group's side codes parse to `s`. */
  lemma {:induction false} ListedInMeaning(groups: seq<seq<string>>, s: Side)
    ensures ListedIn(groups, s) <==> exists g :: 0 <= g < |groups| && s in ParseSides(groups[g])
  {
    if groups != [] {
      var init := groups[..|groups| - 1];
      ListedInMeaning(init, s);
      assert forall g :: 0 <= g < |init| ==> init[g] == groups[g];
    }
  }

  predicate ClaimedByTrail(tile: TileJson, s: Side)
  {
    ListedIn(tile.trails, s)
  }

  predicate ClaimedByBush(tile: TileJson, s: Side)
  {
    ListedIn(BushSides(tile.bushes), s)
  }

  /** The land on edge `s` of a tile: Bush when a bush group lists the
      side, else Trail when a trail group lists it, else Savanna. */
  function EdgeLand(tile: TileJson, s: Side): Land
  {
    if ClaimedByBush(tile, s) then Bush
    else if ClaimedByTrail(tile, s) then Trail
    else Savanna
  }

  /** The rule in full: an edge is Bush exactly when some bush group lists
      its side, Trail exactly when no bush group and some trail group lists
      it, and Savanna otherwise. */
  lemma EdgeLandMeaning(tile: TileJson, s: Side)
    ensures EdgeLand(tile, s) == Bush <==>
      exists m :: 0 <= m < |tile.bushes| && s in ParseSides(tile.bushes[m].sides)
    ensures EdgeLand(tile, s) == Trail <==>
      && (forall m :: 0 <= m < |tile.bushes| ==> s !in ParseSides(tile.bushes[m].sides))
      && (exists g :: 0 <= g < |tile.trails| && s in ParseSides(tile.trails[g]))
    ensures EdgeLand(tile, s) == Savanna <==>
      && (forall m :: 0 <= m < |tile.bushes| ==> s !in ParseSides(tile.bushes[m].sides))
      && (forall g :: 0 <= g < |tile.trails| ==> s !in ParseSides(tile.trails[g]))
  {
    ListedInMeaning(tile.trails, s);
    ListedInMeaning(BushSides(tile.bushes), s);
    assert forall m :: 0 <= m < |tile.bushes| ==> BushSides(tile.bushes)[m] == tile.bushes[m].sides;
  }

  /** The edge array of a tile, slot k holding the land of SideAt(k). */
  function Edges(tile: TileJson): (r: seq<Land>)
  {
    [EdgeLand(tile, North), EdgeLand(tile, East), EdgeLand(tile, South), EdgeLand(tile, West)]
  }

  /** Trail group g with the animal of code row[g]. */
  function TrailsOf(tile: TileJson, row: seq<string>): seq<TrailFeature>
    requires |row| >= |tile.trails|
  {
    seq(|tile.trails|, g requires 0 <= g < |tile.trails| =>
      TrailFeature(ParseSides(tile.trails[g]), AnimalFromString(row[g])))
  }

  /** Bush group m with the animal of code row[start + m], always present,
      and its bird count. */
  function BushesOf(tile: TileJson, row: seq<string>, start: nat): seq<BushFeature>
    requires |row| >= start + |tile.bushes|
  {
    seq(|tile.bushes|, m requires 0 <= m < |tile.bushes| =>
      BushFeature(ParseSides(tile.bushes[m].sides),
                  Some(AnimalFromString(row[start + m])),
                  tile.bushes[m].birds))
  }

  /** The concrete tile a long enough variation row describes: the trail
      groups take the first codes of the row, the bush groups the codes
      after them. */
  function Instance(name: string, tile: TileJson, row: seq<string>, faceUp: bool): TileInstance
    requires |row| >= Slots(tile)
  {
    TileInstance(name, faceUp, tile.baobab,
      TrailsOf(tile, row), BushesOf(tile, row, |tile.trails|), Edges(tile))
  }

  /** Expansion of one row: it fails, indexing the row at its own length,
      exactly when the row is shorter than the tile's number of groups. */
  function ExpandSpec(name: string, tile: TileJson, row: seq<string>, faceUp: bool): Result<TileInstance>
  {
    if |row| < Slots(tile) then Failure(IndexOutOfBounds(|row|, |row|))
    else Success(Instance(name, tile, row, faceUp))
  }

  // ---------------------------------------------------------------------
  // The edge array as the source builds it: slots overwritten in order.

  const AllSavanna: seq<Land> := [Savanna, Savanna, Savanna, Savanna]

  /** The edge array after writing `land` into the slot of each code of
      `codes`, in order. */
  function Paint(conn: seq<Land>, codes: seq<string>, land: Land): (r: seq<Land>)
    requires |conn| == 4
    ensures |r| == 4
  {
    if codes == [] then conn
    else Paint(conn, codes[..|codes| - 1], land)[ToIndex(SideFromString(codes[|codes| - 1])) := land]
  }

  /** The edge array after painting each group of `groups`, in order. */
  function PaintGroups(conn: seq<Land>, groups: seq<seq<string>>, land: Land): (r: seq<Land>)
    requires |conn| == 4
    ensures |r| == 4
  {
    if groups == [] then conn
    else Paint(PaintGroups(conn, groups[..|groups| - 1], land), groups[|groups| - 1], land)
  }

  /** Painting a group sets exactly the slots of the sides it lists. */
  lemma {:induction false} PaintAt(conn: seq<Land>, codes: seq<string>, land: Land, s: Side)
    requires |conn| == 4
    ensures Paint(conn, codes, land)[ToIndex(s)] ==
      if s in ParseSides(codes) then land else conn[ToIndex(s)]
  {
    if codes != [] {
      var init := codes[..|codes| - 1];
      PaintAt(conn, init, land, s);
      ToIndexInjective(s, SideFromString(codes[|codes| - 1]));
    }
  }

  /** Painting several groups sets exactly the slots of the sides some
      group lists. */
  lemma {:induction false} PaintGroupsAt(conn: seq<Land>, groups: seq<seq<string>>, land: Land, s: Side)
    requires |conn| == 4
    ensures PaintGroups(conn, groups, land)[ToIndex(s)] ==
      if ListedIn(groups, s) then land else conn[ToIndex(s)]
  {
    if groups != [] {
      var init := groups[..|groups| - 1];
      var last := groups[|groups| - 1];
      PaintGroupsAt(conn, init, land, s);
      PaintAt(PaintGroups(conn, init, land), last, land, s);
    }
  }

  /** The edge array as the source leaves it: all Savanna, then every trail
      group painted Trail, then every bush group painted Bush. */
  function PaintedEdges(tile: TileJson): (r: seq<Land>)
    ensures |r| == 4
  {
    PaintGroups(PaintGroups(AllSavanna, tile.trails, Trail), BushSides(tile.bushes), Bush)
  }

  /** On each side, overwriting trails first and bushes second gives the
      land of the declarative rule: bush over trail over savanna. */
  lemma PaintedEdgeAt(tile: TileJson, s: Side)
    ensures PaintedEdges(tile)[ToIndex(s)] == EdgeLand(tile, s)
  {
    var afterTrails := PaintGroups(AllSavanna, tile.trails, Trail);
    PaintGroupsAt(AllSavanna, tile.trails, Trail, s);
    PaintGroupsAt(afterTrails, BushSides(tile.bushes), Bush, s);
  }

  /** The whole edge array: the source's overwriting gives `Edges`. */
  lemma PaintedEdgesMeaning(tile: TileJson)
    ensures PaintedEdges(tile) == Edges(tile)
  {
    PaintedEdgeAt(tile, North);
    PaintedEdgeAt(tile, East);
    PaintedEdgeAt(tile, South);
    PaintedEdgeAt(tile, West);
  }

  // ---------------------------------------------------------------------
  // The shared loop body.

  /** The inner loop of both group walks: parses the group's side codes
      into a vector and writes `land` into each side's slot. */
  method PaintSides(connections: array<Land>, codes: seq<string>, land: Land)
    returns (sides: seq<Side>)
    requires connections.Length == 4
    modifies connections
    ensures sides == ParseSides(codes)
    ensures connections[..] == Paint(old(connections[..]), codes, land)
  {
    sides := [];
    var k := 0;
    while k < |codes|
      invariant 0 <= k <= |codes|
      invariant sides == ParseSides(codes[..k])
      invariant connections[..] == Paint(old(connections[..]), codes[..k], land)
    {
      var side := SideFromString(codes[k]);
      sides := sides + [side];
      connections[ToIndex(side)] := land;
      k := k + 1;
      assert codes[..k][..k - 1] == codes[..k - 1];
    }
    assert codes[..k] == codes;
  }

  /** The trail walk: each trail group's sides are painted Trail, then the
      group takes the animal of row code `i`, and `i` moves on. `ok` is
      false when `i` reaches the end of the row, where the source panics. */
  method WalkTrails(connections: array<Land>, tile: TileJson, row: seq<string>)
    returns (trails: seq<TrailFeature>, i: nat, ok: bool)
    requires connections.Length == 4
    modifies connections
    ensures ok <==> |row| >= |tile.trails|
    ensures ok ==> i == |tile.trails|
    ensures !ok ==> i == |row|
    ensures ok ==> connections[..] == PaintGroups(old(connections[..]), tile.trails, Trail)
    ensures ok ==> trails == TrailsOf(tile, row)
  {
    i := 0;
    trails := [];
    var g := 0;
    while g < |tile.trails|
      invariant 0 <= g <= |tile.trails| && i == g && i <= |row|
      invariant connections[..] == PaintGroups(old(connections[..]), tile.trails[..g], Trail)
      invariant |trails| == g
      invariant forall k :: 0 <= k < g ==>
        trails[k] == TrailFeature(ParseSides(tile.trails[k]), AnimalFromString(row[k]))
    {
      var sides := PaintSides(connections, tile.trails[g], Trail);
      assert tile.trails[..g + 1][..g] == tile.trails[..g];
      if i >= |row| {
        return trails, i, false;
      }
      trails := trails + [TrailFeature(sides, AnimalFromString(row[i]))];
      i := i + 1;
      g := g + 1;
    }
    assert tile.trails[..g] == tile.trails;
    assert trails == TrailsOf(tile, row);
    ok := true;
  }

  /** The bush walk, continuing the counter where the trail walk left it at
      `start`: each bush group's sides are painted Bush; the source's
      `if let` on the row code always matches, so every bush group gets an
      animal and moves the counter on. */
  method WalkBushes(connections: array<Land>, tile: TileJson, row: seq<string>, start: nat)
    returns (bushes: seq<BushFeature>, i: nat, ok: bool)
    requires connections.Length == 4 && start <= |row|
    modifies connections
    ensures ok <==> |row| >= start + |tile.bushes|
    ensures ok ==> i == start + |tile.bushes|
    ensures !ok ==> i == |row|
    ensures ok ==> connections[..] == PaintGroups(old(connections[..]), BushSides(tile.bushes), Bush)
    ensures ok ==> bushes == BushesOf(tile, row, start)
  {
    i := start;
    bushes := [];
    var groups := BushSides(tile.bushes);
    var m := 0;
    while m < |tile.bushes|
      invariant 0 <= m <= |tile.bushes| && i == start + m && i <= |row|
      invariant connections[..] == PaintGroups(old(connections[..]), groups[..m], Bush)
      invariant |bushes| == m
      invariant forall k :: 0 <= k < m ==>
        bushes[k] == BushFeature(ParseSides(tile.bushes[k].sides),
                                 Some(AnimalFromString(row[start + k])),
                                 tile.bushes[k].birds)
    {
      var bush := tile.bushes[m];
      var sides := PaintSides(connections, groups[m], Bush);
      assert groups[..m + 1][..m] == groups[..m];
      if i >= |row| {
        return bushes, i, false;
      }
      var animal := Some(AnimalFromString(row[i]));
      i := i + 1;
      bushes := bushes + [BushFeature(sides, animal, bush.birds)];
      m := m + 1;
    }
    assert groups[..m] == groups;
    assert bushes == BushesOf(tile, row, start);
    ok := true;
  }

  /** One variation row of a tile definition expanded as the source does it:
      a four-slot edge array starts all Savanna, the trail walk and then the
      bush walk overwrite the slots of their sides and take the row's codes
      in turn with one shared counter. The result is the declarative
      expansion: it fails, at index |row|, exactly when the row has fewer
      codes than the tile has groups; otherwise the edges follow the rule
      bush over trail over savanna and the animals are positional. */
  method ExpandVariation(name: string, tile: TileJson, row: seq<string>, faceUp: bool)
    returns (r: Result<TileInstance>)
    ensures r == ExpandSpec(name, tile, row, faceUp)
  {
    var connections := new Land[4](_ => Savanna);
    assert connections[..] == AllSavanna;
    var trails, i, ok := WalkTrails(connections, tile, row);
    if !ok {
      return Failure(IndexOutOfBounds(i, |row|));
    }
    var bushes, ok';
    bushes, i, ok' := WalkBushes(connections, tile, row, i);
    if !ok' {
      return Failure(IndexOutOfBounds(i, |row|));
    }
    PaintedEdgesMeaning(tile);
    r := Success(TileInstance(name, faceUp, tile.baobab, trails, bushes, connections[..]));
  }

  // ---------------------------------------------------------------------
  // Expanding every row of every tile definition.

  /** The instances of a tile definition's rows, in row order, or the
      failure of the first row that is too short. */
  function ExpandRows(name: string, tile: TileJson, rows: seq<seq<string>>, faceUp: bool)
    : Result<seq<TileInstance>>
  {
    if rows == [] then Success([])
    else
      match ExpandRows(name, tile, rows[..|rows| - 1], faceUp)
      case Failure(e) => Failure(e)
      case Success(ts) =>
        match ExpandSpec(name, tile, rows[|rows| - 1], faceUp)
        case Failure(e) => Failure(e)
        case Success(t) => Success(ts + [t])
  }

  /** The instances of every definition of a catalog, taken in the given
      order, each definition's rows in row order; or the first failure. */
  function ExpandCatalog(entries: seq<(string, TileJson)>, faceUp: bool): Result<seq<TileInstance>>
  {
    if entries == [] then Success([])
    else
      match ExpandCatalog(entries[..|entries| - 1], faceUp)
      case Failure(e) => Failure(e)
      case Success(ts) =>
        var (name, tile) := entries[|entries| - 1];
        match ExpandRows(name, tile, tile.variations, faceUp)
        case Failure(e) => Failure(e)
        case Success(us) => Success(ts + us)
  }

  /** A row is too short when it has fewer codes than the tile has groups. */
  predicate ShortRow(tile: TileJson, row: seq<string>)
  {
    |row| < Slots(tile)
  }

  /** Every row of a definition is long enough. */
  predicate RowsFit(tile: TileJson)
  {
    forall k :: 0 <= k < |tile.variations| ==> !ShortRow(tile, tile.variations[k])
  }

  /** Every row of every definition of the catalog is long enough. */
  predicate CatalogFits(entries: seq<(string, TileJson)>)
  {
    forall e, k :: 0 <= e < |entries| && 0 <= k < |entries[e].1.variations| ==>
      !ShortRow(entries[e].1, entries[e].1.variations[k])
  }

  /** The number of variation rows of all definitions of the catalog. */
  function TotalRows(entries: seq<(string, TileJson)>): nat
  {
    if entries == [] then 0
    else TotalRows(entries[..|entries| - 1]) + |entries[|entries| - 1].1.variations|
  }

  /** Expanding the rows of a definition succeeds exactly when no row is
      too short, and then gives exactly one instance per row, in row order,
      each the declarative instance of its row. */
  lemma {:induction false} ExpandRowsSuccess(name: string, tile: TileJson, rows: seq<seq<string>>, faceUp: bool)
    ensures ExpandRows(name, tile, rows, faceUp).Success? <==>
      forall k :: 0 <= k < |rows| ==> !ShortRow(tile, rows[k])
    ensures ExpandRows(name, tile, rows, faceUp).Success? ==>
      var ts := ExpandRows(name, tile, rows, faceUp).value;
      && |ts| == |rows|
      && forall k :: 0 <= k < |rows| ==> ts[k] == Instance(name, tile, rows[k], faceUp)
  {
    if rows != [] {
      var init := rows[..|rows| - 1];
      ExpandRowsSuccess(name, tile, init, faceUp);
      assert forall k :: 0 <= k < |init| ==> init[k] == rows[k];
    }
  }

  /** When expanding the rows fails, the error is that of the first row
      that is too short: the index past its end. */
  lemma {:induction false} ExpandRowsFirstFailure(name: string, tile: TileJson, rows: seq<seq<string>>, faceUp: bool)
    requires ExpandRows(name, tile, rows, faceUp).Failure?
    ensures exists k :: (
      && 0 <= k < |rows| && ShortRow(tile, rows[k])
      && (forall j :: 0 <= j < k ==> !ShortRow(tile, rows[j]))
      && ExpandRows(name, tile, rows, faceUp).error == IndexOutOfBounds(|rows[k]|, |rows[k]|))
  {
    var init := rows[..|rows| - 1];
    if ExpandRows(name, tile, init, faceUp).Failure? {
      ExpandRowsFirstFailure(name, tile, init, faceUp);
      var k :| 0 <= k < |init| && ShortRow(tile, init[k])
        && (forall j :: 0 <= j < k ==> !ShortRow(tile, init[j]))
        && ExpandRows(name, tile, init, faceUp).error == IndexOutOfBounds(|init[k]|, |init[k]|);
      assert rows[k] == init[k];
      assert forall j :: 0 <= j < k ==> rows[j] == init[j];
    } else {
      ExpandRowsSuccess(name, tile, init, faceUp);
      assert forall j :: 0 <= j < |init| ==> rows[j] == init[j];
    }
  }

  /** Once the rows up to `v` fail, expanding all the rows fails the same way. */
  lemma {:induction false} ExpandRowsPrefixFailure(name: string, tile: TileJson, rows: seq<seq<string>>, v: nat, faceUp: bool)
    requires v <= |rows|
    requires ExpandRows(name, tile, rows[..v], faceUp).Failure?
    ensures ExpandRows(name, tile, rows, faceUp) == ExpandRows(name, tile, rows[..v], faceUp)
  {
    if v < |rows| {
      var init := rows[..|rows| - 1];
      assert init[..v] == rows[..v];
      ExpandRowsPrefixFailure(name, tile, init, v, faceUp);
    } else {
      assert rows[..v] == rows;
    }
  }

  /** Once the definitions up to `e` fail, expanding the catalog fails the
      same way. */
  lemma {:induction false} ExpandCatalogPrefixFailure(entries: seq<(string, TileJson)>, e: nat, faceUp: bool)
    requires e <= |entries|
    requires ExpandCatalog(entries[..e], faceUp).Failure?
    ensures ExpandCatalog(entries, faceUp) == ExpandCatalog(entries[..e], faceUp)
  {
    if e < |entries| {
      var init := entries[..|entries| - 1];
      assert init[..e] == entries[..e];
      ExpandCatalogPrefixFailure(init, e, faceUp);
    } else {
      assert entries[..e] == entries;
    }
  }

  /** Instance `t` has face `faceUp` and the name and baobab flag of some
      definition of the catalog. */
  predicate FromCatalog(t: TileInstance, entries: seq<(string, TileJson)>, faceUp: bool)
  {
    t.faceUp == faceUp &&
    exists e :: 0 <= e < |entries| && t.name == entries[e].0 && t.baobab == entries[e].1.baobab
  }

  /** Expanding a catalog succeeds exactly when every row of every
      definition is long enough, and then yields one instance per row of
      the catalog; each instance carries the face given, and the name and
      baobab flag of a definition of the catalog. */
  lemma {:induction false} ExpandCatalogMeaning(entries: seq<(string, TileJson)>, faceUp: bool)
    ensures ExpandCatalog(entries, faceUp).Success? <==> CatalogFits(entries)
    ensures ExpandCatalog(entries, faceUp).Success? ==>
      var ts := ExpandCatalog(entries, faceUp).value;
      && |ts| == TotalRows(entries)
      && forall t :: t in ts ==> FromCatalog(t, entries, faceUp)
  {
    if entries != [] {
      var init := entries[..|entries| - 1];
      var (name, tile) := entries[|entries| - 1];
      ExpandCatalogMeaning(init, faceUp);
      ExpandRowsSuccess(name, tile, tile.variations, faceUp);
      assert forall e :: 0 <= e < |init| ==> init[e] == entries[e];
      if ExpandCatalog(entries, faceUp).Success? {
        var ts := ExpandCatalog(init, faceUp).value;
        var us := ExpandRows(name, tile, tile.variations, faceUp).value;
        forall t: TileInstance | t in ts + us
          ensures FromCatalog(t, entries, faceUp)
        {
          if t in ts {
            var e :| 0 <= e < |init| && t.name == init[e].0 && t.baobab == init[e].1.baobab;
            assert entries[e] == init[e];
          } else {
            var k :| 0 <= k < |us| && us[k] == t;
            assert entries[|entries| - 1].0 == t.name;
          }
        }
      }
      CatalogFitsLast(entries);
    }
  }

  /** A catalog fits exactly when all but its last definition fit and no
      row of the last one is short. */
  lemma CatalogFitsLast(entries: seq<(string, TileJson)>)
    requires entries != []
    ensures CatalogFits(entries) <==>
      && CatalogFits(entries[..|entries| - 1])
      && RowsFit(entries[|entries| - 1].1)
  {
    var init := entries[..|entries| - 1];
    assert forall e :: 0 <= e < |init| ==> init[e] == entries[e];
    if !CatalogFits(entries) && CatalogFits(init) {
      var e, k :| 0 <= e < |entries| && 0 <= k < |entries[e].1.variations|
        && ShortRow(entries[e].1, entries[e].1.variations[k]);
      assert e == |entries| - 1;
    }
  }
}
