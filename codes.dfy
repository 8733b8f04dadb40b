/** The one-letter codes of the tile catalog: the four sides of a tile, the
    terrain on an edge and the animal tokens. Both parsers are total: a code
    they do not know falls back to a fixed variant instead of failing. */
module Codes {

  /** One of the four edges of a tile. */
  datatype Side = North | East | South | West

  /** The terrain on one edge of a tile. */
  datatype Land = Trail | Bush | Savanna

  /** An animal token; `NoAnimal` is the variant the source calls `None`. */
  datatype Animal = Monkey | Elephant | Giraffe | Lion | Zebra | NoAnimal

  /** Parses a side code. "N", "E" and "S" name their sides; every other
      string, "W" included, is read as West. */
  function SideFromString(s: string): (r: Side)
    ensures r == North <==> s == "N"
    ensures r == East <==> s == "E"
    ensures r == South <==> s == "S"
    ensures r == West <==> s != "N" && s != "E" && s != "S"
  {
    match s
    case "N" => North
    case "E" => East
    case "S" => South
    case _ => West
  }

  /** The slot of a side in a tile's four-slot edge array. */
  function ToIndex(side: Side): (r: nat)
    ensures r < 4
    ensures [North, East, South, West][r] == side
  {
    match side
    case North => 0
    case East => 1
    case South => 2
    case West => 3
  }

  /** The side that owns a slot of the edge array: the inverse of ToIndex. */
  function SideAt(k: nat): (r: Side)
    requires k < 4
    ensures ToIndex(r) == k
  {
    if k == 0 then North else if k == 1 then East else if k == 2 then South else West
  }

  /** The code the catalog writes for a side. */
  function SideCode(side: Side): (r: string)
    ensures |r| == 1
  {
    match side
    case North => "N"
    case East => "E"
    case South => "S"
    case West => "W"
  }

  /** The edge slots are distinct: ToIndex is injective, and SideAt undoes it. */
  lemma ToIndexInjective(a: Side, b: Side)
    ensures ToIndex(a) == ToIndex(b) <==> a == b
    ensures SideAt(ToIndex(a)) == a
  {
  }

  /** Every side has a code that parses back to it, so the lenient parser
      loses no side. */
  lemma SideCodeRoundTrip(side: Side)
    ensures SideFromString(SideCode(side)) == side
  {
  }

  /** Parses an animal code: "M", "E", "G", "L" and "Z" name their animals;
      every other string is read as no animal. The parser never fails. */
  function AnimalFromString(s: string): (r: Animal)
    ensures r == Monkey <==> s == "M"
    ensures r == Elephant <==> s == "E"
    ensures r == Giraffe <==> s == "G"
    ensures r == Lion <==> s == "L"
    ensures r == Zebra <==> s == "Z"
    ensures r == NoAnimal <==> s !in {"M", "E", "G", "L", "Z"}
  {
    match s
    case "M" => Monkey
    case "E" => Elephant
    case "G" => Giraffe
    case "L" => Lion
    case "Z" => Zebra
    case _ => NoAnimal
  }

  /** The code the catalog writes for an animal; no animal has no letter of
      its own, and the empty string stands for it. */
  function AnimalCode(a: Animal): (r: string)
    ensures a != NoAnimal <==> |r| == 1
  {
    match a
    case Monkey => "M"
    case Elephant => "E"
    case Giraffe => "G"
    case Lion => "L"
    case Zebra => "Z"
    case NoAnimal => ""
  }

  /** Every animal, no animal included, is reached by parsing its code. */
  lemma AnimalCodeRoundTrip(a: Animal)
    ensures AnimalFromString(AnimalCode(a)) == a
  {
  }
}
