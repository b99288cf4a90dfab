/** The records osm_to_pbsu.py reads from an Overpass/JOSM JSON document and
    the entities it builds from them. Coordinates are Dafny reals: Python
    floats without rounding. An element's absent `tags` or `nodes` key is
    represented by the empty map or list, which is what the code's
    `.get('tags', {})` and `.get('nodes', [])` substitute for it. */
module OsmEntities {
  import opened Text

  /** An OSM tag mapping; key order plays no role in the code. */
  type Tags = map<string, string>

  /** One entry of the document's `elements` list. `Other` is any element
      whose `type` is neither "node" nor "way" (a relation, say); both
      passes ignore it. */
  datatype Element =
    | Node(id: int, lat: real, lon: real, tags: Tags)
    | Way(id: int, nodes: seq<int>, tags: Tags)
    | Other

  datatype Point = Point(lat: real, lon: real)

  datatype Stop = Stop(id: int, lat: real, lon: real, name: string, tags: Tags)

  datatype Road = Road(id: int, nodes: seq<Point>, tags: Tags)

  datatype Building = Building(id: int, nodes: seq<Point>, tags: Tags, height: real)

  /** tags.get(key) == value */
  predicate TagIs(tags: Tags, key: string, value: string) {
    key in tags && tags[key] == value
  }

  /** The stop test of the first pass (osm_to_pbsu.py:40). */
  predicate IsStopTags(tags: Tags) {
    TagIs(tags, "highway", "bus_stop") || TagIs(tags, "public_transport", "platform")
  }

  /** The road allow-list of the second pass (osm_to_pbsu.py:55). */
  const RoadHighways: seq<string> := ["primary", "secondary", "tertiary", "residential", "trunk"]

  predicate IsRoadTags(tags: Tags) {
    "highway" in tags && tags["highway"] in RoadHighways
  }

  /** `if tags.get('building'):` is true for a present, non-empty value. */
  predicate IsBuildingTags(tags: Tags) {
    "building" in tags && tags["building"] != ""
  }

  /** tags.get('name', f"Bus Stop {id}") */
  function StopName(id: int, tags: Tags): string {
    if "name" in tags then tags["name"] else "Bus Stop " + IntToString(id)
  }

  function PointOf(e: Element): Point
    requires e.Node?
  {
    Point(e.lat, e.lon)
  }

  function StopOf(e: Element): (s: Stop)
    requires e.Node?
    ensures s.id == e.id && s.lat == e.lat && s.lon == e.lon && s.tags == e.tags
    ensures "name" in e.tags ==> s.name == e.tags["name"]
    ensures "name" !in e.tags ==> s.name == "Bus Stop " + IntToString(e.id)
  {
    Stop(e.id, e.lat, e.lon, StopName(e.id, e.tags), e.tags)
  }

  /** Two stop nodes without a name tag never share their default name,
      and a stop with a name tag is called by it. */
  lemma StopNamesFromIds(a: Element, b: Element)
    requires a.Node? && b.Node?
    ensures "name" !in a.tags && "name" !in b.tags && a.id != b.id ==> StopOf(a).name != StopOf(b).name
    ensures "name" in a.tags ==> StopOf(a).name == a.tags["name"]
  {
    if "name" !in a.tags && "name" !in b.tags && StopOf(a).name == StopOf(b).name {
      var p := "Bus Stop ";
      assert IntToString(a.id) == StopOf(a).name[|p|..];
      assert IntToString(b.id) == StopOf(b).name[|p|..];
      IntToStringInjective(a.id, b.id);
    }
  }
}
