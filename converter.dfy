/** The converter object of osm_to_pbsu.py (class OSMToPBSUConverter) and
    what `convert` produces. The object's three lists are fields that
    parse_osm_json appends to, so a second call accumulates. File output is
    modelled as a map from a path relative to the output directory to the
    text written there; later writes to the same path replace earlier ones. */
module Converter {
  import opened Text
  import opened Runtime
  import opened Naming
  import opened OsmEntities
  import opened BuildingHeight
  import opened Projection
  import opened Extraction
  import opened Emitters

  // ---------------------------------------------------------------
  // Paths (create_directory_structure and convert, osm_to_pbsu.py:327-408)

  function MapPath(mapName: string): string {
    mapName + ".map.txt"
  }

  function TilesDir(mapName: string, routeName: string): string {
    mapName + "/tiles/" + routeName
  }

  function ListPath(mapName: string, routeName: string): string {
    TilesDir(mapName, routeName) + "/entrypoints_list.txt"
  }

  function EntrypointsPath(mapName: string, routeName: string): string {
    TilesDir(mapName, routeName) + "/entrypoints.txt"
  }

  function BusstopsDir(mapName: string, routeName: string): string {
    TilesDir(mapName, routeName) + "/aipeople/busstops/"
  }

  function BusstopPath(mapName: string, routeName: string, id: string): string {
    BusstopsDir(mapName, routeName) + id + ".txt"
  }

  // ---------------------------------------------------------------
  // What convert writes and exports

  /** The origin: the caller's, unless either coordinate is missing, in which
      case both come from the first stop. */
  function OriginOf(stops: seq<Stop>, originLat: Option<real>, originLon: Option<real>): (real, real)
    requires |stops| > 0
  {
    if originLat.None? || originLon.None? then (stops[0].lat, stops[0].lon)
    else (originLat.value, originLon.value)
  }

  /** The map file, the list and the entry points, written first. */
  function FixedFiles(stops: seq<Stop>, mapName: string, routeName: string, originLat: real, originLon: real, rt: Runtime): map<string, string> {
    map[MapPath(mapName) := MapText(mapName, routeName)]
      [ListPath(mapName, routeName) := EntrypointsList(stops, rt)]
      [EntrypointsPath(mapName, routeName) := EntrypointsText(stops, originLat, originLon, rt)]
  }

  /** The bus-stop files written over `files`, in stop order. */
  function WriteBusstops(files: map<string, string>, stops: seq<Stop>, mapName: string, routeName: string, rt: Runtime): map<string, string> {
    if |stops| == 0 then files
    else
      var s := stops[|stops| - 1];
      WriteBusstops(files, stops[..|stops| - 1], mapName, routeName, rt)
        [BusstopPath(mapName, routeName, Slug(s.name, rt)) := BusstopText(s, rt)]
  }

  /** Writing the first i + 1 stops is writing the first i, then stop i. */
  lemma WriteBusstopsSnoc(files: map<string, string>, stops: seq<Stop>, mapName: string, routeName: string, rt: Runtime, i: nat)
    requires i < |stops|
    ensures WriteBusstops(files, stops[..i + 1], mapName, routeName, rt)
         == WriteBusstops(files, stops[..i], mapName, routeName, rt)[BusstopPath(mapName, routeName, Slug(stops[i].name, rt)) := BusstopText(stops[i], rt)]
  {
    assert stops[..i + 1][..i] == stops[..i];
  }

  function ConvertFiles(stops: seq<Stop>, mapName: string, routeName: string, originLat: real, originLon: real, rt: Runtime): map<string, string> {
    WriteBusstops(FixedFiles(stops, mapName, routeName, originLat, originLon, rt), stops, mapName, routeName, rt)
  }

  datatype GeoBuilding = GeoBuilding(footprint: seq<Vec3>, height: real, kind: string, name: string)

  datatype GeoStop = GeoStop(name: string, internalName: string, position: Vec3, lat: real, lon: real)

  /** The part of geographic_data.json this model keeps. */
  datatype GeoExport = GeoExport(originLat: real, originLon: real, buildings: seq<GeoBuilding>, busStops: seq<GeoStop>)

  datatype Outcome =
    | NoStops                                     // the early return: nothing created
    | Written(originLat: real, originLon: real, files: map<string, string>, geo: GeoExport)

  function Footprint(nodes: seq<Point>, originLat: real, originLon: real, rt: Runtime): (f: seq<Vec3>)
    ensures |f| == |nodes|
    ensures forall k :: 0 <= k < |nodes| ==>
      f[k] == LatLonToUnity(nodes[k].lat, nodes[k].lon, originLat, originLon, rt) && f[k].y == 0.0
  {
    if |nodes| == 0 then []
    else
      var n := nodes[|nodes| - 1];
      Footprint(nodes[..|nodes| - 1], originLat, originLon, rt) + [LatLonToUnity(n.lat, n.lon, originLat, originLon, rt)]
  }

  function GeoBuildingOf(b: Building, originLat: real, originLon: real, rt: Runtime): GeoBuilding {
    GeoBuilding(Footprint(b.nodes, originLat, originLon, rt), b.height,
      if "building" in b.tags then b.tags["building"] else "yes",
      if "name" in b.tags then b.tags["name"] else "")
  }

  /** The exported buildings: every building with at least one node, in order. */
  function GeoBuildings(bs: seq<Building>, originLat: real, originLon: real, rt: Runtime): (g: seq<GeoBuilding>)
    ensures |g| <= |bs|
  {
    if |bs| == 0 then []
    else
      var b := bs[|bs| - 1];
      GeoBuildings(bs[..|bs| - 1], originLat, originLon, rt)
        + (if b.nodes == [] then [] else [GeoBuildingOf(b, originLat, originLon, rt)])
  }

  /** Every building the second pass produces has at least one node, so
      the export keeps them all, one each, in order. */
  lemma {:induction false} GeoBuildingsKeepAll(bs: seq<Building>, originLat: real, originLon: real, rt: Runtime)
    requires forall k :: 0 <= k < |bs| ==> bs[k].nodes != []
    ensures |GeoBuildings(bs, originLat, originLon, rt)| == |bs|
    ensures forall k :: 0 <= k < |bs| ==>
      GeoBuildings(bs, originLat, originLon, rt)[k] == GeoBuildingOf(bs[k], originLat, originLon, rt)
  {
    if |bs| > 0 {
      GeoBuildingsKeepAll(bs[..|bs| - 1], originLat, originLon, rt);
    }
  }

  function GeoStopOf(s: Stop, originLat: real, originLon: real, rt: Runtime): GeoStop {
    GeoStop(s.name, Slug(s.name, rt), LatLonToUnity(s.lat, s.lon, originLat, originLon, rt), s.lat, s.lon)
  }

  /** The exported stops, one per stop, each under the identifier the text files use. */
  function GeoStops(stops: seq<Stop>, originLat: real, originLon: real, rt: Runtime): (g: seq<GeoStop>)
    ensures |g| == |stops|
    ensures forall k :: 0 <= k < |stops| ==>
      g[k].name == stops[k].name && g[k].internalName == Slug(stops[k].name, rt)
      && g[k].position == LatLonToUnity(stops[k].lat, stops[k].lon, originLat, originLon, rt)
  {
    if |stops| == 0 then []
    else
      GeoStops(stops[..|stops| - 1], originLat, originLon, rt)
        + [GeoStopOf(stops[|stops| - 1], originLat, originLon, rt)]
  }

  // ---------------------------------------------------------------
  // The converter object

  /** The inner loop over a way's node ids (osm_to_pbsu.py:57-63, 74-80). */
  method ResolveWayNodes(ids: seq<int>, nodes: NodeIndex) returns (pts: seq<Point>)
    ensures pts == Resolve(ids, nodes)
  {
    pts := [];
    var i := 0;
    while i < |ids|
      invariant 0 <= i <= |ids|
      invariant pts == Resolve(ids[..i], nodes)
    {
      if ids[i] in nodes {
        pts := pts + [nodes[ids[i]]];
      }
      assert ids[..i + 1][..i] == ids[..i];
      i := i + 1;
    }
    assert ids[..|ids|] == ids;
  }

  /** The footprint loop of the export (osm_to_pbsu.py:443-448). */
  method ProjectFootprint(nodes: seq<Point>, originLat: real, originLon: real, rt: Runtime) returns (footprint: seq<Vec3>)
    ensures footprint == Footprint(nodes, originLat, originLon, rt)
  {
    footprint := [];
    for j := 0 to |nodes|
      invariant footprint == Footprint(nodes[..j], originLat, originLon, rt)
    {
      var p := LatLonToUnity(nodes[j].lat, nodes[j].lon, originLat, originLon, rt);
      footprint := footprint + [p];
      assert nodes[..j + 1][..j] == nodes[..j];
    }
    assert nodes[..|nodes|] == nodes;
  }

  /** The road test of the second pass (osm_to_pbsu.py:55-69): a road of
      the kept classes with at least one resolvable node. */
  method RoadFromWay(e: Element, nodes: NodeIndex) returns (r: seq<Road>)
    requires e.Way?
    ensures r == RoadOf(e, nodes)
  {
    r := [];
    if IsRoadTags(e.tags) {
      var pts := ResolveWayNodes(e.nodes, nodes);
      if pts != [] {
        r := [Road(e.id, pts, e.tags)];
      }
    }
  }

  /** The building test of the second pass (osm_to_pbsu.py:72-89): a way
      with a non-empty building tag and at least one resolvable node. */
  method BuildingFromWay(e: Element, nodes: NodeIndex, rt: Runtime) returns (b: seq<Building>)
    requires e.Way?
    ensures b == BuildingOf(e, nodes, rt)
  {
    b := [];
    if IsBuildingTags(e.tags) {
      var pts := ResolveWayNodes(e.nodes, nodes);
      if pts != [] {
        var height := ExtractBuildingHeight(e.tags, rt);
        b := [Building(e.id, pts, e.tags, height)];
      }
    }
  }

  /** One building of the export (osm_to_pbsu.py:436-456). */
  method ExportBuilding(b: Building, originLat: real, originLon: real, rt: Runtime) returns (g: GeoBuilding)
    ensures g == GeoBuildingOf(b, originLat, originLon, rt)
  {
    var footprint := ProjectFootprint(b.nodes, originLat, originLon, rt);
    var kind := if "building" in b.tags then b.tags["building"] else "yes";
    var name := if "name" in b.tags then b.tags["name"] else "";
    g := GeoBuilding(footprint, b.height, kind, name);
  }

  /** The nine appends of one stop in generate_entrypoints_txt
      (osm_to_pbsu.py:280-288). */
  method AppendBlock(lines: seq<string>, i: nat, internalName: string, p: Vec3, rt: Runtime) returns (out: seq<string>)
    ensures out == lines + BlockLines(i, internalName, p, rt)
  {
    out := lines + ["[entrypoint_" + NatToString(i) + "]"];
    out := out + ["name=" + internalName];
    out := out + ["posX=" + rt.fixed6(p.x)];
    out := out + ["posY=" + rt.fixed6(p.y)];
    out := out + ["posZ=" + rt.fixed6(p.z)];
    out := out + ["rotX=0"];
    out := out + ["rotY=0"];
    out := out + ["rotZ=0"];
    out := out + [""];
  }

  class OsmToPbsuConverter {
    const outputDir: string
    var busStops: seq<Stop>
    var routeWays: seq<Road>
    var buildings: seq<Building>

    constructor (outputDir: string)
      ensures this.outputDir == outputDir
      ensures busStops == [] && routeWays == [] && buildings == []
    {
      this.outputDir := outputDir;
      busStops := [];
      routeWays := [];
      buildings := [];
    }

    /** parse_osm_json: appends what the two passes extract to the fields. */
    method ParseOsmJson(elements: seq<Element>, rt: Runtime)
      modifies this
      ensures busStops == old(busStops) + StopsOf(elements)
      ensures routeWays == old(routeWays) + RoadsOf(elements, IndexNodes(elements))
      ensures buildings == old(buildings) + BuildingsOf(elements, IndexNodes(elements), rt)
    {
      var nodes := IndexPass(elements);
      WayPass(elements, nodes, rt);
    }

    /** The first pass (osm_to_pbsu.py:33-47): index every node, append the stops. */
    method IndexPass(elements: seq<Element>) returns (nodes: NodeIndex)
      modifies this
      ensures nodes == IndexNodes(elements)
      ensures busStops == old(busStops) + StopsOf(elements)
      ensures routeWays == old(routeWays) && buildings == old(buildings)
    {
      nodes := map[];
      var stops: seq<Stop> := [];
      for i := 0 to |elements|
        invariant nodes == IndexNodes(elements[..i])
        invariant stops == StopsOf(elements[..i])
      {
        var e := elements[i];
        assert elements[..i + 1][..i] == elements[..i];
        assert elements[..i + 1][i] == e;
        if e.Node? {
          nodes := nodes[e.id := Point(e.lat, e.lon)];
          if IsStopTags(e.tags) {
            stops := stops + [Stop(e.id, e.lat, e.lon, StopName(e.id, e.tags), e.tags)];
          }
        }
      }
      assert elements[..|elements|] == elements;
      busStops := busStops + stops;
    }

    /** The second pass (osm_to_pbsu.py:50-89): classify every way, resolving
        its node ids through the finished index. */
    method WayPass(elements: seq<Element>, nodes: NodeIndex, rt: Runtime)
      modifies this
      ensures busStops == old(busStops)
      ensures routeWays == old(routeWays) + RoadsOf(elements, nodes)
      ensures buildings == old(buildings) + BuildingsOf(elements, nodes, rt)
    {
      var roads: seq<Road> := [];
      var bs: seq<Building> := [];
      for i := 0 to |elements|
        invariant roads == RoadsOf(elements[..i], nodes)
        invariant bs == BuildingsOf(elements[..i], nodes, rt)
        invariant unchanged(this)
      {
        var e := elements[i];
        assert elements[..i + 1][..i] == elements[..i];
        assert elements[..i + 1][i] == e;
        assert RoadsOf(elements[..i + 1], nodes) == roads + (if e.Way? then RoadOf(e, nodes) else []);
        assert BuildingsOf(elements[..i + 1], nodes, rt) == bs + (if e.Way? then BuildingOf(e, nodes, rt) else []);
        if e.Way? {
          var r := RoadFromWay(e, nodes);
          var b := BuildingFromWay(e, nodes, rt);
          roads := roads + r;
          bs := bs + b;
        }
      }
      assert elements[..|elements|] == elements;
      routeWays := routeWays + roads;
      buildings := buildings + bs;
    }

    /** generate_entrypoints_list */
    method GenerateEntrypointsList(rt: Runtime) returns (text: string)
      ensures text == EntrypointsList(busStops, rt)
    {
      var lines: seq<string> := [];
      for i := 0 to |busStops|
        invariant lines == EntrypointsListLines(busStops[..i], rt)
      {
        var internalName := Slug(busStops[i].name, rt);
        lines := lines + [internalName];
        assert busStops[..i + 1][..i] == busStops[..i];
      }
      assert busStops[..|busStops|] == busStops;
      text := Join(lines, '\n');
    }

    /** generate_entrypoints_txt */
    method GenerateEntrypointsTxt(originLat: real, originLon: real, rt: Runtime) returns (text: string)
      ensures text == EntrypointsText(busStops, originLat, originLon, rt)
    {
      var lines: seq<string> := [];
      for i := 0 to |busStops|
        invariant lines == EntrypointsLines(busStops[..i], originLat, originLon, rt)
      {
        var stop := busStops[i];
        var internalName := Slug(stop.name, rt);
        var p := LatLonToUnity(stop.lat, stop.lon, originLat, originLon, rt);
        lines := AppendBlock(lines, i + 1, internalName, p, rt);
        EntrypointsLinesSnoc(busStops, originLat, originLon, rt, i);
      }
      assert busStops[..|busStops|] == busStops;
      text := Join(lines, '\n');
    }

    /** The exported buildings (osm_to_pbsu.py:431-456), without the centre point. */
    method ExportBuildings(originLat: real, originLon: real, rt: Runtime) returns (out: seq<GeoBuilding>)
      ensures out == GeoBuildings(buildings, originLat, originLon, rt)
    {
      out := [];
      var bs := buildings;
      for i := 0 to |bs|
        invariant out == GeoBuildings(bs[..i], originLat, originLon, rt)
      {
        var b := bs[i];
        assert bs[..i + 1][..i] == bs[..i];
        if b.nodes != [] {
          var g := ExportBuilding(b, originLat, originLon, rt);
          out := out + [g];
        }
      }
      assert bs[..|bs|] == bs;
    }

    /** The exported stops (osm_to_pbsu.py:466-478). */
    method ExportStops(originLat: real, originLon: real, rt: Runtime) returns (out: seq<GeoStop>)
      ensures out == GeoStops(busStops, originLat, originLon, rt)
    {
      out := [];
      for i := 0 to |busStops|
        invariant out == GeoStops(busStops[..i], originLat, originLon, rt)
      {
        var stop := busStops[i];
        var p := LatLonToUnity(stop.lat, stop.lon, originLat, originLon, rt);
        var internalName := Slug(stop.name, rt);
        out := out + [GeoStop(stop.name, internalName, p, stop.lat, stop.lon)];
        assert busStops[..i + 1][..i] == busStops[..i];
      }
      assert busStops[..|busStops|] == busStops;
    }

    /** The writes of convert (osm_to_pbsu.py:380-408): map file, list,
        entry points, then one file per stop. */
    method WriteFiles(mapName: string, routeName: string, originLat: real, originLon: real, rt: Runtime)
      returns (files: map<string, string>)
      ensures files == ConvertFiles(busStops, mapName, routeName, originLat, originLon, rt)
    {
      files := map[];
      files := files[MapPath(mapName) := MapText(mapName, routeName)];
      var entrypointsList := GenerateEntrypointsList(rt);
      files := files[ListPath(mapName, routeName) := entrypointsList];
      var entrypointsTxt := GenerateEntrypointsTxt(originLat, originLon, rt);
      files := files[EntrypointsPath(mapName, routeName) := entrypointsTxt];
      ghost var fixed := files;
      assert fixed == FixedFiles(busStops, mapName, routeName, originLat, originLon, rt);
      var stops := busStops;
      for i := 0 to |stops|
        invariant files == WriteBusstops(fixed, stops[..i], mapName, routeName, rt)
      {
        var busstopTxt := BusstopText(stops[i], rt);
        var internalName := Slug(stops[i].name, rt);
        WriteBusstopsSnoc(fixed, stops, mapName, routeName, rt, i);
        files := files[BusstopPath(mapName, routeName, internalName) := busstopTxt];
      }
      assert stops[..|stops|] == stops;
    }

    /** convert: parse, stop early without stops, pick the origin, then
        produce every file and the geographic export. */
    method Convert(elements: seq<Element>, mapName: string, routeName: string,
                   originLat: Option<real>, originLon: Option<real>, rt: Runtime)
      returns (outcome: Outcome)
      modifies this
      ensures busStops == old(busStops) + StopsOf(elements)
      ensures routeWays == old(routeWays) + RoadsOf(elements, IndexNodes(elements))
      ensures buildings == old(buildings) + BuildingsOf(elements, IndexNodes(elements), rt)
      ensures outcome.NoStops? <==> busStops == []
      ensures outcome.Written? ==>
        var o := OriginOf(busStops, originLat, originLon);
        outcome == Written(o.0, o.1, ConvertFiles(busStops, mapName, routeName, o.0, o.1, rt),
          GeoExport(o.0, o.1, GeoBuildings(buildings, o.0, o.1, rt), GeoStops(busStops, o.0, o.1, rt)))
    {
      ParseOsmJson(elements, rt);
      if |busStops| == 0 {
        return NoStops;
      }
      var lat, lon := originLat, originLon;
      var oLat: real, oLon: real;
      if lat.None? || lon.None? {
        oLat, oLon := busStops[0].lat, busStops[0].lon;
      } else {
        oLat, oLon := lat.value, lon.value;
      }
      var files := WriteFiles(mapName, routeName, oLat, oLon, rt);
      var geoBuildings := ExportBuildings(oLat, oLon, rt);
      var geoStops := ExportStops(oLat, oLon, rt);
      outcome := Written(oLat, oLon, files, GeoExport(oLat, oLon, geoBuildings, geoStops));
    }
  }
}
