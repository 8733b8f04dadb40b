/** The tile catalog as the JSON resource describes it, and the lenient
    filter that turns one section of it into a map from tile name to tile
    definition, skipping the entries that do not deserialise. */
module Catalog {

  /** 32-bit unsigned integer, the type of a bush's bird count. */
  newtype u32 = x: int | 0 <= x < 0x1_0000_0000

  datatype Option<T> = None | Some(value: T)

  /** A generic JSON value tree, as the catalog loader produces it. */
  datatype Json =
    | Null
    | Bool(b: bool)
    | Number(n: int)
    | Str(s: string)
    | Array(items: seq<Json>)
    | Object(fields: map<string, Json>)

  /** One bush group of a tile definition: its side codes and bird count. */
  datatype BushJson = BushJson(sides: seq<string>, birds: u32)

  /** A tile definition (archetype) as it is read from the catalog: the side
      codes of each trail group, the bush groups, the baobab flag, and the
      variation rows of animal codes. */
  datatype TileJson = TileJson(
    trails: seq<seq<string>>,
    bushes: seq<BushJson>,
    baobab: bool,
    variations: seq<seq<string>>)

  /** `Value::get(key)`: the field of an object, nothing for any other value. */
  function Get(v: Json, key: string): (r: Option<Json>)
    ensures r.Some? <==> v.Object? && key in v.fields
    ensures r.Some? ==> r.value == v.fields[key]
  {
    match v
    case Object(fields) => if key in fields then Some(fields[key]) else None
    case _ => None
  }

  /** The entries of section `key` of the catalog root, when that section
      exists and is an object. */
  function Section(root: Json, key: string): (r: Option<map<string, Json>>)
    ensures r.Some? <==> Get(root, key).Some? && Get(root, key).value.Object?
    ensures r.Some? ==> r.value == root.fields[key].fields
  {
    match Get(root, key)
    case Some(Object(fields)) => Some(fields)
    case _ => None
  }

  /** Collecting zipped name and tile vectors into a map: each pair is
      inserted in turn, so a later pair wins over an earlier one with the
      same name. */
  function ZipToMap(names: seq<string>, tiles: seq<TileJson>): (r: map<string, TileJson>)
    requires |names| == |tiles|
    ensures r.Keys == set k | 0 <= k < |names| :: names[k]
    ensures forall k :: 0 <= k < |names| && (forall k' :: k < k' < |names| ==> names[k'] != names[k]) ==>
      r[names[k]] == tiles[k]
  {
    if names == [] then map[]
    else
      var m := ZipToMap(names[..|names| - 1], tiles[..|tiles| - 1]);
      assert forall k :: 0 <= k < |names| - 1 ==> names[..|names| - 1][k] == names[k];
      assert forall k :: 0 <= k < |tiles| - 1 ==> tiles[..|tiles| - 1][k] == tiles[k];
      m[names[|names| - 1] := tiles[|tiles| - 1]]
  }

  /** The names of the entries of a section that deserialise. */
  function Decodable(fields: map<string, Json>, decode: Json -> Option<TileJson>): set<string>
  {
    set name | name in fields && decode(fields[name]).Some?
  }

  /** The names of the entries of a section that do not deserialise. */
  function Rejected(fields: map<string, Json>, decode: Json -> Option<TileJson>): set<string>
  {
    set name | name in fields && decode(fields[name]).None?
  }

  /** Every entry of a section is either kept or skipped, never both: a
      section with k malformed entries yields k fewer tiles than it has
      entries. */
  lemma DecodableCount(fields: map<string, Json>, decode: Json -> Option<TileJson>)
    ensures Decodable(fields, decode) !! Rejected(fields, decode)
    ensures |Decodable(fields, decode)| + |Rejected(fields, decode)| == |fields|
  {
    assert Decodable(fields, decode) + Rejected(fields, decode) == fields.Keys;
  }

  /** The map `json_to_struct` builds for section `key`: every entry of the
      section that deserialises, under its own name; empty when there is no
      such section. */
  function TilesMap(root: Json, key: string, decode: Json -> Option<TileJson>): map<string, TileJson>
  {
    match Section(root, key)
    case None => map[]
    case Some(fields) => map name | name in fields && decode(fields[name]).Some? :: decode(fields[name]).value
  }

  /** The loop of `json_to_struct`: visits every entry of the section once,
      in an order the map does not fix, and pushes the name and the decoded
      definition of each entry that deserialises. */
  method CollectDecodable(fields: map<string, Json>, decode: Json -> Option<TileJson>)
    returns (tilesNames: seq<string>, tiles: seq<TileJson>)
    ensures |tilesNames| == |tiles|
    ensures forall k, k' :: 0 <= k < k' < |tilesNames| ==> tilesNames[k] != tilesNames[k']
    ensures forall k :: 0 <= k < |tilesNames| ==>
      tilesNames[k] in fields && decode(fields[tilesNames[k]]) == Some(tiles[k])
    ensures forall name :: name in Decodable(fields, decode) ==>
      exists k :: 0 <= k < |tilesNames| && tilesNames[k] == name
  {
    tiles := [];
    tilesNames := [];
    var rest := fields.Keys;
    while rest != {}
      invariant rest <= fields.Keys
      invariant |tiles| == |tilesNames|
      invariant forall k :: 0 <= k < |tilesNames| ==> tilesNames[k] !in rest
      invariant forall k, k' :: 0 <= k < k' < |tilesNames| ==> tilesNames[k] != tilesNames[k']
      invariant forall k :: 0 <= k < |tilesNames| ==>
        tilesNames[k] in fields && decode(fields[tilesNames[k]]) == Some(tiles[k])
      invariant forall name :: name in Decodable(fields, decode) && name !in rest ==>
        exists k :: 0 <= k < |tilesNames| && tilesNames[k] == name
      decreases rest
    {
      var tileName :| tileName in rest;
      var decoded := decode(fields[tileName]);
      if decoded.Some? {
        ghost var before := tilesNames;
        tiles := tiles + [decoded.value];
        tilesNames := tilesNames + [tileName];
        assert forall k :: 0 <= k < |before| ==> tilesNames[k] == before[k];
        assert tilesNames[|before|] == tileName;
      }
      rest := rest - {tileName};
    }
  }

  /** `TileJson::json_to_struct`: for the section `key` of the catalog root,
      keeps exactly the entries that `decode` (the deserialiser) accepts,
      each under its own name with the decoded definition, so a section
      with k malformed entries gives k fewer tiles than it has entries. A
      missing section, or one that is not an object, gives the empty map. */
  method JsonToStruct(root: Json, key: string, decode: Json -> Option<TileJson>)
    returns (r: map<string, TileJson>)
    ensures r == TilesMap(root, key, decode)
    ensures Section(root, key).None? ==> r == map[]
    ensures Section(root, key).Some? ==>
      var fields := Section(root, key).value;
      && r.Keys == Decodable(fields, decode)
      && (forall name :: name in r ==> Some(r[name]) == decode(fields[name]))
      && |r| + |Rejected(fields, decode)| == |fields|
  {
    var tiles: seq<TileJson> := [];
    var tilesNames: seq<string> := [];
    var section := Get(root, key);
    if section.Some? && section.value.Object? {
      var fields := section.value.fields;
      tilesNames, tiles := CollectDecodable(fields, decode);
      r := ZipToMap(tilesNames, tiles);
      forall name | name in r
        ensures name in Decodable(fields, decode) && Some(r[name]) == decode(fields[name])
      {
        var k :| 0 <= k < |tilesNames| && tilesNames[k] == name;
      }
      assert r.Keys == Decodable(fields, decode);
      DecodableCount(fields, decode);
      assert |r| == |r.Keys|;
    } else {
      r := ZipToMap(tilesNames, tiles);
    }
    assert r.Keys == TilesMap(root, key, decode).Keys;
  }

  /** `entries` lists the pairs of `m`, each name once: one iteration order
      of the map. */
  predicate Enumerates(entries: seq<(string, TileJson)>, m: map<string, TileJson>)
  {
    && (forall i, j :: 0 <= i < j < |entries| ==> entries[i].0 != entries[j].0)
    && (forall i :: 0 <= i < |entries| ==> entries[i].0 in m && m[entries[i].0] == entries[i].1)
    && (forall name :: name in m ==> exists i :: 0 <= i < |entries| && entries[i].0 == name)
  }

  /** `for (name, tile) in map`: the map's pairs, one per name, in an order
      the map does not fix. */
  method Entries(m: map<string, TileJson>) returns (entries: seq<(string, TileJson)>)
    ensures Enumerates(entries, m)
    ensures |entries| == |m|
  {
    entries := [];
    var rest := m.Keys;
    while rest != {}
      invariant rest <= m.Keys
      invariant |entries| + |rest| == |m|
      invariant forall i :: 0 <= i < |entries| ==> entries[i].0 !in rest
      invariant forall i, j :: 0 <= i < j < |entries| ==> entries[i].0 != entries[j].0
      invariant forall i :: 0 <= i < |entries| ==> entries[i].0 in m && m[entries[i].0] == entries[i].1
      invariant forall name :: name in m && name !in rest ==>
        exists i :: 0 <= i < |entries| && entries[i].0 == name
      decreases rest
    {
      var name :| name in rest;
      ghost var before := entries;
      entries := entries + [(name, m[name])];
      assert forall i :: 0 <= i < |before| ==> entries[i] == before[i];
      assert entries[|before|].0 == name;
      rest := rest - {name};
    }
  }
}
