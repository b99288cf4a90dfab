/** From parsed entries to Blender objects: the loops of the helper
    scripts (import_entrypoints, create_all_busstops_from_entrypoints,
    create_road_from_entrypoints in automate_post_conversion.py) and of the
    scene script (ai_automation.py:449-506).

    Every coordinate is `float(entry.get(key, 0))`: a missing key reads as
    0.0, and a value float() cannot read raises ValueError, which ends the
    script; the objects made before it stay in the scene. The Unity
    position (x, y, z) is placed at Blender (x, z, y). */
module StopPlacement {
  import opened Text
  import opened Runtime
  import opened Naming
  import opened OsmEntities
  import opened Projection
  import opened Emitters
  import opened EntrypointsParser
  import opened EntrypointsRoundTrip
  import opened Mesh
  import opened BusStopObjects

  /** How a loop over entries ended: every entry processed, or a float()
      raised after `value` had been made. */
  datatype Outcome<T> = Completed(value: T) | Failed(value: T)

  /** float(entry.get(key, 0)) */
  function Coordinate(e: Entry, key: string, rt: Runtime): Option<real> {
    if key in e then rt.parseFloat(e[key]) else Some(0.0)
  }

  /** The Unity position an entry gives, None when a coordinate is unreadable. */
  function UnityPosition(e: Entry, rt: Runtime): Option<Vec3> {
    var x := Coordinate(e, "posX", rt);
    var y := Coordinate(e, "posY", rt);
    var z := Coordinate(e, "posZ", rt);
    if x.Some? && y.Some? && z.Some? then Some(Vec3(x.value, y.value, z.value)) else None
  }

  /** The entries that have a name, placed at their Blender position, in
      order; stops at the first named entry with an unreadable coordinate. */
  function NamedPlaces(entries: seq<Entry>, rt: Runtime): Outcome<seq<Placed>>
    decreases |entries|
  {
    if |entries| == 0 then Completed([])
    else
      var before := NamedPlaces(entries[..|entries| - 1], rt);
      var e := entries[|entries| - 1];
      if before.Failed? || "name" !in e then before
      else match UnityPosition(e, rt)
        case None => Failed(before.value)
        case Some(p) => Completed(before.value + [Placed(e["name"], UnityToBlender(p))])
  }

  /** Every entry's Blender position, named or not (the road script). */
  function AllPoints(entries: seq<Entry>, rt: Runtime): Outcome<seq<Vec3>>
    decreases |entries|
  {
    if |entries| == 0 then Completed([])
    else
      var before := AllPoints(entries[..|entries| - 1], rt);
      if before.Failed? then before
      else match UnityPosition(entries[|entries| - 1], rt)
        case None => Failed(before.value)
        case Some(p) => Completed(before.value + [UnityToBlender(p)])
  }

  /** The marker import_entrypoints makes for a place. */
  function MarkerOf(p: Placed): Placed {
    Placed("BusStop_" + p.name, p.location)
  }

  function Markers(places: seq<Placed>): (ms: seq<Placed>)
    ensures |ms| == |places|
    ensures forall k :: 0 <= k < |places| ==> ms[k] == MarkerOf(places[k])
  {
    seq(|places|, k requires 0 <= k < |places| => MarkerOf(places[k]))
  }

  /** A coordinate that is present but that float() rejects. */
  predicate Unreadable(e: Entry, key: string, rt: Runtime) {
    key in e && rt.parseFloat(e[key]).None?
  }

  /** One entry's Unity position, as the loops compute it: the three reads
      fail exactly when one of the coordinates is present and unreadable. */
  method ReadPosition(e: Entry, rt: Runtime) returns (pos: Option<Vec3>)
    ensures pos == UnityPosition(e, rt)
    ensures pos.None? <==> Unreadable(e, "posX", rt) || Unreadable(e, "posY", rt) || Unreadable(e, "posZ", rt)
  {
    var x := if "posX" in e then rt.parseFloat(e["posX"]) else Some(0.0);
    var y := if "posY" in e then rt.parseFloat(e["posY"]) else Some(0.0);
    var z := if "posZ" in e then rt.parseFloat(e["posZ"]) else Some(0.0);
    if x.None? || y.None? || z.None? {
      return None;
    }
    pos := Some(Vec3(x.value, y.value, z.value));
  }

  /** The marker loop of import_entrypoints. */
  method MakeMarkers(entries: seq<Entry>, rt: Runtime) returns (markers: Outcome<seq<Placed>>)
    ensures markers.Completed? == NamedPlaces(entries, rt).Completed?
    ensures markers.value == Markers(NamedPlaces(entries, rt).value)
  {
    var made: seq<Placed> := [];
    ghost var places: seq<Placed> := [];
    for i := 0 to |entries|
      invariant NamedPlaces(entries[..i], rt) == Completed(places)
      invariant |made| == |places|
      invariant forall k :: 0 <= k < |made| ==> made[k] == MarkerOf(places[k])
    {
      NamedPlacesStep(entries, i, rt);
      var entry := entries[i];
      if "name" in entry {
        var name := entry["name"];
        var pos := ReadPosition(entry, rt);
        if pos.None? {
          NamedPlacesFailedStays(entries, i + 1, rt);
          return Failed(made);
        }
        var blenderPos := UnityToBlender(pos.value);
        made := made + [Placed("BusStop_" + name, blenderPos)];
        places := places + [Placed(name, blenderPos)];
      }
    }
    assert entries[..|entries|] == entries;
    markers := Completed(made);
  }

  /** import_entrypoints (automate_post_conversion.py:167-222): a sphere
      marker `BusStop_<name>` per named entry. A missing file makes nothing. */
  method ImportEntrypoints(file: Option<string>, rt: Runtime) returns (markers: Outcome<seq<Placed>>)
    ensures file.None? ==> markers == Completed([])
    ensures file.Some? ==>
      var places := NamedPlaces(ParseEntrypointsText(file.value), rt);
      && markers.Completed? == places.Completed?
      && markers.value == Markers(places.value)
  {
    var entries := ParseEntrypoints(file);
    if file.None? {
      return Completed([]);
    }
    markers := MakeMarkers(entries, rt);
  }

  /** The trigger and spawns the helper script makes for one place. */
  datatype StopObjects = StopObjects(trigger: Placed, spawns: seq<Placed>)

  function HelperObjectsOf(p: Placed): StopObjects {
    StopObjects(Placed(TriggerName(p.name), p.location), HelperSpawns(p.name, p.location))
  }

  function HelperObjects(places: seq<Placed>): (os: seq<StopObjects>)
    ensures |os| == |places|
    ensures forall k :: 0 <= k < |places| ==> os[k] == HelperObjectsOf(places[k])
  {
    seq(|places|, k requires 0 <= k < |places| => HelperObjectsOf(places[k]))
  }

  /** The object loop of create_all_busstops_from_entrypoints. */
  method MakeBusstopObjects(entries: seq<Entry>, rt: Runtime) returns (objects: Outcome<seq<StopObjects>>)
    ensures objects.Completed? == NamedPlaces(entries, rt).Completed?
    ensures objects.value == HelperObjects(NamedPlaces(entries, rt).value)
  {
    var made: seq<StopObjects> := [];
    ghost var places: seq<Placed> := [];
    for i := 0 to |entries|
      invariant NamedPlaces(entries[..i], rt) == Completed(places)
      invariant |made| == |places|
      invariant forall k :: 0 <= k < |made| ==> made[k] == HelperObjectsOf(places[k])
    {
      NamedPlacesStep(entries, i, rt);
      var entry := entries[i];
      if "name" in entry {
        var name := entry["name"];
        var pos := ReadPosition(entry, rt);
        if pos.None? {
          NamedPlacesFailedStays(entries, i + 1, rt);
          return Failed(made);
        }
        var blenderPos := UnityToBlender(pos.value);
        var trigger, spawns := CreateBusstopObjects(name, blenderPos);
        made := made + [StopObjects(trigger, spawns)];
        places := places + [Placed(name, blenderPos)];
      }
    }
    assert entries[..|entries|] == entries;
    objects := Completed(made);
  }

  /** create_all_busstops_from_entrypoints (automate_post_conversion.py:280-330):
      a trigger and five spawns per named entry. A missing file makes nothing. */
  method CreateAllBusstops(file: Option<string>, rt: Runtime) returns (objects: Outcome<seq<StopObjects>>)
    ensures file.None? ==> objects == Completed([])
    ensures file.Some? ==>
      var places := NamedPlaces(ParseEntrypointsText(file.value), rt);
      && objects.Completed? == places.Completed?
      && objects.value == HelperObjects(places.value)
  {
    var entries := ParseEntrypoints(file);
    if file.None? {
      return Completed([]);
    }
    objects := MakeBusstopObjects(entries, rt);
  }

  /** The point loop of create_road_from_entrypoints. */
  method CollectPoints(entries: seq<Entry>, rt: Runtime) returns (points: Outcome<seq<Vec3>>)
    ensures points == AllPoints(entries, rt)
  {
    var acc: seq<Vec3> := [];
    for i := 0 to |entries|
      invariant AllPoints(entries[..i], rt) == Completed(acc)
    {
      AllPointsStep(entries, i, rt);
      var pos := ReadPosition(entries[i], rt);
      if pos.None? {
        AllPointsFailedStays(entries, i + 1, rt);
        return Failed(acc);
      }
      acc := acc + [UnityToBlender(pos.value)];
    }
    assert entries[..|entries|] == entries;
    points := Completed(acc);
  }

  /** create_road_from_entrypoints (automate_post_conversion.py:414-456):
      every entry's position, named or not, joined by one road. A missing
      file, or fewer than two points, makes no road. */
  method CreateRoadFromEntrypoints(file: Option<string>, rt: Runtime) returns (road: Outcome<Option<Named<Corner>>>)
    ensures file.None? ==> road == Completed(None)
    ensures file.Some? ==>
      var points := AllPoints(ParseEntrypointsText(file.value), rt);
      && road.Completed? == points.Completed?
      && (road.Failed? ==> road.value.None?)
      && (road.Completed? ==>
            (&& (road.value.Some? <==> |points.value| >= 2)
             && (road.value.Some? ==>
                   (&& road.value.value.name == "Road"
                    && |road.value.value.mesh.verts| == 2 * |points.value|
                    && |road.value.value.mesh.faces| == |points.value| - 1))))
  {
    var entries := ParseEntrypoints(file);
    if file.None? {
      return Completed(None);
    }
    var points := CollectPoints(entries, rt);
    if points.Failed? {
      return Failed(None);
    }
    if |points.value| > 0 {
      var r := CreateRoadBetweenPoints(points.value);
      road := Completed(r);
    } else {
      road := Completed(None);
    }
  }

  // ---------------------------------------------------------------
  // How the specifications unfold, one entry at a time

  lemma NamedPlacesStep(entries: seq<Entry>, i: nat, rt: Runtime)
    requires i < |entries|
    ensures var before := NamedPlaces(entries[..i], rt);
      var e := entries[i];
      NamedPlaces(entries[..i + 1], rt) ==
        if before.Failed? || "name" !in e then before
        else match UnityPosition(e, rt)
          case None => Failed(before.value)
          case Some(p) => Completed(before.value + [Placed(e["name"], UnityToBlender(p))])
  {
    assert entries[..i + 1][..i] == entries[..i];
  }

  /** Once a float() has raised, later entries are not looked at. */
  lemma {:induction false} NamedPlacesFailedStays(entries: seq<Entry>, i: nat, rt: Runtime)
    requires i <= |entries| && NamedPlaces(entries[..i], rt).Failed?
    ensures NamedPlaces(entries, rt) == NamedPlaces(entries[..i], rt)
    decreases |entries| - i
  {
    if i < |entries| {
      NamedPlacesStep(entries, i, rt);
      NamedPlacesFailedStays(entries, i + 1, rt);
    } else {
      assert entries[..i] == entries;
    }
  }

  lemma AllPointsStep(entries: seq<Entry>, i: nat, rt: Runtime)
    requires i < |entries|
    ensures var before := AllPoints(entries[..i], rt);
      AllPoints(entries[..i + 1], rt) ==
        if before.Failed? then before
        else match UnityPosition(entries[i], rt)
          case None => Failed(before.value)
          case Some(p) => Completed(before.value + [UnityToBlender(p)])
  {
    assert entries[..i + 1][..i] == entries[..i];
  }

  lemma {:induction false} AllPointsFailedStays(entries: seq<Entry>, i: nat, rt: Runtime)
    requires i <= |entries| && AllPoints(entries[..i], rt).Failed?
    ensures AllPoints(entries, rt) == AllPoints(entries[..i], rt)
    decreases |entries| - i
  {
    if i < |entries| {
      AllPointsStep(entries, i, rt);
      AllPointsFailedStays(entries, i + 1, rt);
    } else {
      assert entries[..i] == entries;
    }
  }

  lemma SceneStopsStep(entries: seq<Entry>, i: nat, rt: Runtime)
    requires i < |entries|
    ensures var before := SceneStops(entries[..i], rt);
      var e := entries[i];
      SceneStops(entries[..i + 1], rt) ==
        if before.None? || "name" !in e then before
        else
          var rot := Coordinate(e, "rotY", rt);
          match UnityPosition(e, rt)
          case None => None
          case Some(p) =>
            if rot.None? then None
            else Some(before.value + [SceneStop(e["name"], UnityToBlender(p), rot.value)])
  {
    assert entries[..i + 1][..i] == entries[..i];
  }

  lemma {:induction false} SceneStopsFailedStays(entries: seq<Entry>, i: nat, rt: Runtime)
    requires i <= |entries| && SceneStops(entries[..i], rt).None?
    ensures SceneStops(entries, rt).None?
    decreases |entries| - i
  {
    if i < |entries| {
      SceneStopsStep(entries, i, rt);
      SceneStopsFailedStays(entries, i + 1, rt);
    } else {
      assert entries[..i] == entries;
    }
  }

  // ---------------------------------------------------------------
  // The scene script

  /** A stop as the scene script keeps it: name, Blender position, and the
      rotation read from rotY. */
  datatype SceneStop = SceneStop(name: string, position: Vec3, rotationY: real)

  /** The named entries as scene stops, or None when any float() raises. */
  function SceneStops(entries: seq<Entry>, rt: Runtime): (r: Option<seq<SceneStop>>)
    decreases |entries|
  {
    if |entries| == 0 then Some([])
    else
      var before := SceneStops(entries[..|entries| - 1], rt);
      var e := entries[|entries| - 1];
      if before.None? || "name" !in e then before
      else
        var rot := Coordinate(e, "rotY", rt);
        match UnityPosition(e, rt)
        case None => None
        case Some(p) =>
          if rot.None? then None
          else Some(before.value + [SceneStop(e["name"], UnityToBlender(p), rot.value)])
  }

  function Positions(stops: seq<SceneStop>): (ps: seq<Vec3>)
    ensures |ps| == |stops|
    ensures forall k :: 0 <= k < |stops| ==> ps[k] == stops[k].position
  {
    seq(|stops|, k requires 0 <= k < |stops| => stops[k].position)
  }

  /** The stop objects and road meshes the scene script builds. */
  datatype Scene = Scene(
    road: Option<Named<Corner>>,
    sidewalks: seq<Named<Corner>>,
    triggers: seq<Placed>,
    spawns: seq<seq<Placed>>)

  /** How the scene script's stop part ends: no entries (it stops with an
      error), a float() that raised before any object was made, or a scene. */
  datatype SceneResult = NoEntrypoints | InvalidNumber | Built(scene: Scene)

  /** The entry loop of the scene script (ai_automation.py:458-477). */
  method CollectSceneStops(entries: seq<Entry>, rt: Runtime) returns (stops: Option<seq<SceneStop>>)
    ensures stops == SceneStops(entries, rt)
  {
    var acc: seq<SceneStop> := [];
    for i := 0 to |entries|
      invariant SceneStops(entries[..i], rt) == Some(acc)
    {
      SceneStopsStep(entries, i, rt);
      var entry := entries[i];
      if "name" in entry {
        var name := entry["name"];
        var pos := ReadPosition(entry, rt);
        if pos.None? {
          SceneStopsFailedStays(entries, i + 1, rt);
          return None;
        }
        var rotY := if "rotY" in entry then rt.parseFloat(entry["rotY"]) else Some(0.0);
        if rotY.None? {
          SceneStopsFailedStays(entries, i + 1, rt);
          return None;
        }
        acc := acc + [SceneStop(name, UnityToBlender(pos.value), rotY.value)];
      }
    }
    assert entries[..|entries|] == entries;
    stops := Some(acc);
  }

  /** The stop's trigger sits 1 above it, and its five spawns carry its
      name and stand 0.6 apart. */
  predicate StopPlaced(stop: SceneStop, trigger: Placed, spawns: seq<Placed>) {
    && trigger == Placed(TriggerName(stop.name), Vec3(stop.position.x, stop.position.y, stop.position.z + 1.0))
    && |spawns| == 5
    && (forall i :: 0 <= i < |spawns| ==>
          spawns[i] == Placed(SpawnName(stop.name, i), SpawnLocation(stop.position, 5, 0.6, i)))
  }

  /** Every stop k is placed with trigger k and spawns k. */
  predicate StopObjectsPlaced(stops: seq<SceneStop>, triggers: seq<Placed>, spawns: seq<seq<Placed>>) {
    && |triggers| == |stops| && |spawns| == |stops|
    && (forall k :: 0 <= k < |stops| ==> StopPlaced(stops[k], triggers[k], spawns[k]))
  }

  /** The per-stop loop of the scene script (ai_automation.py:503-506). */
  method MakeSceneStopObjects(stops: seq<SceneStop>) returns (triggers: seq<Placed>, spawns: seq<seq<Placed>>)
    ensures StopObjectsPlaced(stops, triggers, spawns)
  {
    triggers := [];
    spawns := [];
    for k := 0 to |stops|
      invariant StopObjectsPlaced(stops[..k], triggers, spawns)
    {
      var t := CreateBusstopTrigger(stops[k].name, stops[k].position);
      var s := CreatePassengerSpawns(stops[k].name, stops[k].position, 5, 0.6);
      assert StopPlaced(stops[k], t, s);
      assert forall j :: 0 <= j < k ==> stops[..k + 1][j] == stops[..k][j];
      triggers := triggers + [t];
      spawns := spawns + [s];
    }
    assert stops[..|stops|] == stops;
  }

  /** The default names of create_road_mesh and create_sidewalk. */
  const RoadName: string := "Road"
  const SidewalkName: string := "Sidewalk"

  /** The road mesh `Road` and the sidewalks `Sidewalk_Left` and
      `Sidewalk_Right` through n points: all three exactly when there are
      at least two points, the road with two vertices per point. */
  predicate RoadsThrough(n: nat, road: Option<Named<Corner>>, sidewalks: seq<Named<Corner>>) {
    && (road.Some? <==> n >= 2)
    && (road.Some? ==> road.value.name == RoadName && |road.value.mesh.verts| == 2 * n)
    && (n < 2 ==> sidewalks == [])
    && (n >= 2 ==>
          && |sidewalks| == 2
          && sidewalks[0].name == SidewalkName + "_Left"
          && sidewalks[1].name == SidewalkName + "_Right")
  }

  /** The stop and road part of the scene script (ai_automation.py:449-506):
      a road and two sidewalks through the stops in order, and per stop a
      trigger and five passenger spawns. */
  method BuildScene(file: Option<string>, rt: Runtime) returns (result: SceneResult)
    ensures var entries := if file.None? then [] else ParseEntrypointsText(file.value);
      && (result == NoEntrypoints <==> entries == [])
      && (result == InvalidNumber <==> entries != [] && SceneStops(entries, rt).None?)
      && (result.Built? ==>
            var stops := SceneStops(entries, rt).value;
            var scene := result.scene;
            && RoadsThrough(|stops|, scene.road, scene.sidewalks)
            && StopObjectsPlaced(stops, scene.triggers, scene.spawns))
  {
    var entries := ParseEntrypoints(file);
    if entries == [] {
      return NoEntrypoints;
    }
    var collected := CollectSceneStops(entries, rt);
    if collected.None? {
      return InvalidNumber;
    }
    var stops := collected.value;
    var roadPoints := Positions(stops);
    var road := CreateRoadMesh(roadPoints, RoadName);
    var sidewalks := CreateSidewalk(roadPoints, SidewalkName);
    assert RoadsThrough(|stops|, road, sidewalks);
    var triggers, spawns := MakeSceneStopObjects(stops);
    result := Built(Scene(road, sidewalks, triggers, spawns));
  }

  // ---------------------------------------------------------------
  // Properties

  /** Places with different names get markers with different names, so
      Blender need not rename any of them. */
  lemma MarkerNamesDistinct(places: seq<Placed>, i: nat, j: nat)
    requires i < |places| && j < |places| && places[i].name != places[j].name
    ensures Markers(places)[i].name != Markers(places)[j].name
    ensures Markers(places)[i].location == places[i].location
  {
    if Markers(places)[i].name == Markers(places)[j].name {
      CommonPrefix("BusStop_", places[i].name, places[j].name);
    }
  }

  /** In the helper script's objects, places with different names get
      triggers with different names, and no trigger is named like any
      spawn of any place. */
  lemma HelperObjectNames(places: seq<Placed>, i: nat, j: nat, k: nat)
    requires i < |places| && j < |places|
    ensures places[i].name != places[j].name ==>
      HelperObjects(places)[i].trigger.name != HelperObjects(places)[j].trigger.name
    ensures k < |HelperObjects(places)[j].spawns| ==>
      HelperObjects(places)[i].trigger.name != HelperObjects(places)[j].spawns[k].name
  {
    var os := HelperObjects(places);
    if places[i].name != places[j].name && os[i].trigger.name == os[j].trigger.name {
      TriggerNamesDiffer(places[i].name, places[j].name);
    }
    if k < |os[j].spawns| {
      TriggerIsNotASpawn(places[i].name, places[j].name, k);
    }
  }

  lemma TriggerNamesDiffer(a: string, b: string)
    requires a != b
    ensures TriggerName(a) != TriggerName(b)
  {
    if |a| == |b| {
      assert TriggerName(a)[..|a|] == a && TriggerName(b)[..|b|] == b;
    } else {
      assert |TriggerName(a)| != |TriggerName(b)|;
    }
  }

  /** An entry without coordinates is placed at the origin. */
  lemma MissingCoordinatesAreZero(e: Entry, rt: Runtime)
    requires "posX" !in e && "posY" !in e && "posZ" !in e
    ensures UnityPosition(e, rt) == Some(Vec3(0.0, 0.0, 0.0))
  {
  }

  /** The helper scripts stop exactly when some named entry has an
      unreadable coordinate; otherwise every named entry is placed. */
  lemma {:induction false} NamedPlacesFail(entries: seq<Entry>, rt: Runtime)
    ensures NamedPlaces(entries, rt).Failed? <==>
      exists j :: 0 <= j < |entries| && "name" in entries[j] && UnityPosition(entries[j], rt).None?
    decreases |entries|
  {
    if |entries| > 0 {
      var n := |entries| - 1;
      NamedPlacesFail(entries[..n], rt);
      if NamedPlaces(entries[..n], rt).Failed? {
        var j :| 0 <= j < n && "name" in entries[..n][j] && UnityPosition(entries[..n][j], rt).None?;
        assert entries[j] == entries[..n][j];
      } else {
        forall j | 0 <= j < n && "name" in entries[j]
          ensures UnityPosition(entries[j], rt).Some?
        {
          assert entries[j] == entries[..n][j];
        }
      }
    }
  }

  /** Each place is a named entry's name at that entry's Blender position;
      places keep the order of their entries. */
  lemma {:induction false} NamedPlacesSound(entries: seq<Entry>, rt: Runtime, k: nat)
    requires k < |NamedPlaces(entries, rt).value|
    ensures exists j :: (&& 0 <= j < |entries| && "name" in entries[j] && UnityPosition(entries[j], rt).Some?
      && NamedPlaces(entries, rt).value[k] == Placed(entries[j]["name"], UnityToBlender(UnityPosition(entries[j], rt).value)))
    decreases |entries|
  {
    var n := |entries| - 1;
    var before := NamedPlaces(entries[..n], rt);
    if k < |before.value| {
      NamedPlacesSound(entries[..n], rt, k);
      var j :| 0 <= j < n && "name" in entries[..n][j] && UnityPosition(entries[..n][j], rt).Some?
        && before.value[k] == Placed(entries[..n][j]["name"], UnityToBlender(UnityPosition(entries[..n][j], rt).value));
      assert entries[j] == entries[..n][j];
    } else {
      assert entries[n] == entries[|entries| - 1];
    }
  }

  /** The road takes every entry, the markers and bus stops only named ones:
      an unnamed entry adds a road point and no place. */
  lemma UnnamedEntry(entries: seq<Entry>, e: Entry, rt: Runtime)
    requires "name" !in e && UnityPosition(e, rt).Some?
    requires AllPoints(entries, rt).Completed?
    ensures NamedPlaces(entries + [e], rt) == NamedPlaces(entries, rt)
    ensures AllPoints(entries + [e], rt) == Completed(AllPoints(entries, rt).value + [UnityToBlender(UnityPosition(e, rt).value)])
  {
    assert (entries + [e])[..|entries|] == entries;
  }

  /** The road script's points: one per entry when all are readable. */
  lemma {:induction false} AllPointsCount(entries: seq<Entry>, rt: Runtime)
    requires forall j :: 0 <= j < |entries| ==> UnityPosition(entries[j], rt).Some?
    ensures AllPoints(entries, rt).Completed?
    ensures |AllPoints(entries, rt).value| == |entries|
    ensures forall j :: 0 <= j < |entries| ==> AllPoints(entries, rt).value[j] == UnityToBlender(UnityPosition(entries[j], rt).value)
    decreases |entries|
  {
    if |entries| > 0 {
      var n := |entries| - 1;
      forall j | 0 <= j < n
        ensures UnityPosition(entries[..n][j], rt).Some?
      {
        assert entries[..n][j] == entries[j];
      }
      AllPointsCount(entries[..n], rt);
      forall j | 0 <= j < n
        ensures AllPoints(entries[..n], rt).value[j] == UnityToBlender(UnityPosition(entries[j], rt).value)
      {
        assert entries[..n][j] == entries[j];
      }
    }
  }

  /** When every entry has a name and readable coordinates, each becomes
      the place of the same index. */
  lemma {:induction false} NamedPlacesAllNamed(entries: seq<Entry>, rt: Runtime)
    requires forall j :: 0 <= j < |entries| ==> "name" in entries[j] && UnityPosition(entries[j], rt).Some?
    ensures NamedPlaces(entries, rt).Completed?
    ensures |NamedPlaces(entries, rt).value| == |entries|
    ensures forall j :: 0 <= j < |entries| ==> NamedPlaces(entries, rt).value[j].name == entries[j]["name"]
    decreases |entries|
  {
    if |entries| > 0 {
      var n := |entries| - 1;
      forall j | 0 <= j < n
        ensures "name" in entries[..n][j] && UnityPosition(entries[..n][j], rt).Some?
      {
        assert entries[..n][j] == entries[j];
      }
      NamedPlacesAllNamed(entries[..n], rt);
      forall j | 0 <= j < n
        ensures NamedPlaces(entries[..n], rt).value[j].name == entries[j]["name"]
      {
        assert entries[..n][j] == entries[j];
      }
    }
  }

  lemma EntryOfName(stop: Stop, originLat: real, originLon: real, rt: Runtime)
    ensures "name" in EntryOf(stop, originLat, originLon, rt)
    ensures EntryOf(stop, originLat, originLon, rt)["name"] == Slug(stop.name, rt)
  {
  }

  /** The places of the entries read back from the converter's file: one
      per stop, in order, named by its identifier, when every coordinate
      string reads back as a number. */
  lemma PlacesOfEntries(stops: seq<Stop>, originLat: real, originLon: real, rt: Runtime)
    requires forall k :: 0 <= k < |stops| ==> UnityPosition(EntryOf(stops[k], originLat, originLon, rt), rt).Some?
    ensures var places := NamedPlaces(Entries(stops, originLat, originLon, rt), rt);
      && places.Completed?
      && |places.value| == |stops|
      && (forall k :: 0 <= k < |stops| ==> places.value[k].name == Slug(stops[k].name, rt))
  {
    var es := Entries(stops, originLat, originLon, rt);
    forall j | 0 <= j < |es|
      ensures "name" in es[j] && UnityPosition(es[j], rt).Some?
      ensures es[j]["name"] == Slug(stops[j].name, rt)
    {
      EntryOfName(stops[j], originLat, originLon, rt);
    }
    NamedPlacesAllNamed(es, rt);
  }

  /** End to end: the helper scripts run on the converter's entrypoints.txt
      place one marker `BusStop_<identifier>` per stop, in order. */
  lemma GeneratedFileMarkers(stops: seq<Stop>, originLat: real, originLon: real, rt: Runtime)
    requires Plausible(rt)
    ensures var places := NamedPlaces(ParseEntrypointsText(EntrypointsText(stops, originLat, originLon, rt)), rt);
      && places.Completed?
      && |Markers(places.value)| == |stops|
      && (forall k :: 0 <= k < |stops| ==> Markers(places.value)[k].name == "BusStop_" + Slug(stops[k].name, rt))
  {
    ParseGeneratedEntrypoints(stops, originLat, originLon, rt);
    forall k | 0 <= k < |stops|
      ensures UnityPosition(EntryOf(stops[k], originLat, originLon, rt), rt).Some?
    {
      EntryOfReadable(stops[k], originLat, originLon, rt);
    }
    PlacesOfEntries(stops, originLat, originLon, rt);
  }

  lemma {:induction false} SceneStopsAllNamed(entries: seq<Entry>, rt: Runtime)
    requires forall j :: 0 <= j < |entries| ==>
      "name" in entries[j] && UnityPosition(entries[j], rt).Some? && Coordinate(entries[j], "rotY", rt).Some?
    ensures SceneStops(entries, rt).Some?
    ensures |SceneStops(entries, rt).value| == |entries|
    ensures forall j :: 0 <= j < |entries| ==>
      && SceneStops(entries, rt).value[j].name == entries[j]["name"]
      && SceneStops(entries, rt).value[j].rotationY == Coordinate(entries[j], "rotY", rt).value
    decreases |entries|
  {
    if |entries| > 0 {
      var n := |entries| - 1;
      forall j | 0 <= j < n
        ensures "name" in entries[..n][j] && UnityPosition(entries[..n][j], rt).Some?
        ensures Coordinate(entries[..n][j], "rotY", rt).Some?
      {
        assert entries[..n][j] == entries[j];
      }
      SceneStopsAllNamed(entries[..n], rt);
      forall j | 0 <= j < n
        ensures SceneStops(entries[..n], rt).value[j].name == entries[j]["name"]
        ensures SceneStops(entries[..n], rt).value[j].rotationY == Coordinate(entries[j], "rotY", rt).value
      {
        assert entries[..n][j] == entries[j];
      }
    }
  }

  /** End to end: the scene script run on the converter's entrypoints.txt
      gets one stop per OSM stop, in order, named by its identifier and
      turned by float("0"). */
  lemma GeneratedFileSceneStops(stops: seq<Stop>, originLat: real, originLon: real, rt: Runtime)
    requires Plausible(rt)
    ensures var scene := SceneStops(ParseEntrypointsText(EntrypointsText(stops, originLat, originLon, rt)), rt);
      && scene.Some?
      && |scene.value| == |stops|
      && (forall k :: 0 <= k < |stops| ==>
            scene.value[k].name == Slug(stops[k].name, rt) && scene.value[k].rotationY == rt.parseFloat("0").value)
  {
    ParseGeneratedEntrypoints(stops, originLat, originLon, rt);
    var es := Entries(stops, originLat, originLon, rt);
    forall j | 0 <= j < |es|
      ensures "name" in es[j] && UnityPosition(es[j], rt).Some? && Coordinate(es[j], "rotY", rt).Some?
      ensures es[j]["name"] == Slug(stops[j].name, rt)
      ensures Coordinate(es[j], "rotY", rt) == rt.parseFloat("0")
    {
      EntryOfName(stops[j], originLat, originLon, rt);
      EntryOfRotation(stops[j], originLat, originLon, rt);
      EntryOfReadable(stops[j], originLat, originLon, rt);
    }
    SceneStopsAllNamed(es, rt);
  }

  /** The coordinates the converter writes read back. */
  lemma EntryOfReadable(stop: Stop, originLat: real, originLon: real, rt: Runtime)
    requires Plausible(rt)
    ensures UnityPosition(EntryOf(stop, originLat, originLon, rt), rt).Some?
  {
    var p := LatLonToUnity(stop.lat, stop.lon, originLat, originLon, rt);
    var e := EntryOf(stop, originLat, originLon, rt);
    assert e["posX"] == rt.fixed6(p.x) && e["posY"] == rt.fixed6(p.y) && e["posZ"] == rt.fixed6(p.z);
  }

  lemma EntryOfRotation(stop: Stop, originLat: real, originLon: real, rt: Runtime)
    ensures "rotY" in EntryOf(stop, originLat, originLon, rt)
    ensures EntryOf(stop, originLat, originLon, rt)["rotY"] == "0"
  {
  }
}
