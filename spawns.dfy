/** The objects a bus stop gets in Blender: a trigger box named
    `<stop>_trigger` and passenger spawn empties named `<stop>.000`,
    `<stop>.001`, ... The scene script (ai_automation.py:247-272) and the
    bus-stop helper script (automate_post_conversion.py:250-278) place them
    slightly differently; both use the same names. Only names and
    locations are modelled; scale, rotation and display size are not. */
module BusStopObjects {
  import opened Text
  import opened Projection

  /** A named object at a location (Blender coordinates). */
  datatype Placed = Placed(name: string, location: Vec3)

  /** f"{name}_trigger" */
  function TriggerName(stop: string): string {
    stop + "_trigger"
  }

  /** f"{name}.{i:03d}" */
  function SpawnName(stop: string, i: nat): string {
    stop + "." + Pad3(i)
  }

  /** Where the scene script puts spawn i of `count`: spread along x by
      `spacing`, centred on the stop (count // 2 is its middle; Dafny's `/`
      agrees with Python's `//` for the divisor 2), 1.5 up in y. */
  function SpawnLocation(location: Vec3, count: int, spacing: real, i: nat): Vec3 {
    Vec3(location.x + SpawnOffset(count, spacing, i), location.y + 1.5, location.z)
  }

  /** (i - count // 2) * spacing */
  function SpawnOffset(count: int, spacing: real, i: nat): real {
    (i - count / 2) as real * spacing
  }

  /** The helper script's five spawns of a stop: half a unit apart along
      x, centred on it. */
  function HelperSpawns(name: string, location: Vec3): (spawns: seq<Placed>)
    ensures |spawns| == 5
  {
    seq(5, i requires 0 <= i < 5 => Placed(SpawnName(name, i), Vec3(location.x + (i - 2) as real * 0.5, location.y, location.z)))
  }

  /** create_busstop_trigger (ai_automation.py:247-255): the trigger box
      sits 1 above the stop. */
  method CreateBusstopTrigger(name: string, location: Vec3) returns (trigger: Placed)
    ensures trigger.name == TriggerName(name)
    ensures trigger.location == Vec3(location.x, location.y, location.z + 1.0)
    ensures forall stop: string, i: nat :: trigger.name != SpawnName(stop, i)
  {
    trigger := Placed(name + "_trigger", Vec3(location.x, location.y, location.z + 1.0));
    forall stop: string, i: nat
      ensures trigger.name != SpawnName(stop, i)
    {
      TriggerIsNotASpawn(name, stop, i);
    }
  }

  /** create_passenger_spawns (ai_automation.py:257-272): spawn i for each
      i in range(count), none when count <= 0. */
  method CreatePassengerSpawns(name: string, location: Vec3, count: int, spacing: real)
    returns (spawns: seq<Placed>)
    ensures |spawns| == if count <= 0 then 0 else count
    ensures forall i :: 0 <= i < |spawns| ==> spawns[i].name == SpawnName(name, i)
    ensures forall i :: 0 <= i < |spawns| ==> spawns[i].location == SpawnLocation(location, count, spacing, i)
  {
    spawns := [];
    var n := if count <= 0 then 0 else count;  // len(range(count))
    ghost var f := (j: nat) => Placed(SpawnName(name, j), SpawnLocation(location, count, spacing, j));
    for i := 0 to n
      invariant |spawns| == i
      invariant forall j :: 0 <= j < i ==> spawns[j] == f(j)
    {
      var offsetX := SpawnOffset(count, spacing, i);
      var spawnLoc := Vec3(location.x + offsetX, location.y + 1.5, location.z);
      var spawn := Placed(SpawnName(name, i), spawnLoc);
      AppendMatches(spawns, spawn, f);
      spawns := spawns + [spawn];
    }
  }

  /** One more element that agrees with `f` keeps a list agreeing with it. */
  lemma AppendMatches<T>(s: seq<T>, x: T, f: nat -> T)
    requires forall j :: 0 <= j < |s| ==> s[j] == f(j)
    requires x == f(|s|)
    ensures forall j :: 0 <= j <= |s| ==> (s + [x])[j] == f(j)
  {
  }

  /** The objects of one stop in the helper script create_busstop_objects
      (automate_post_conversion.py:250-278): the trigger at the stop, and 5
      spawns half a unit apart centred on it. */
  method CreateBusstopObjects(name: string, location: Vec3) returns (trigger: Placed, spawns: seq<Placed>)
    ensures trigger == Placed(TriggerName(name), location)
    ensures spawns == HelperSpawns(name, location)
  {
    trigger := Placed(name + "_trigger", location);
    spawns := [];
    for i := 0 to 5
      invariant |spawns| == i
      invariant forall j :: 0 <= j < i ==>
        spawns[j] == Placed(SpawnName(name, j), Vec3(location.x + (j - 2) as real * 0.5, location.y, location.z))
    {
      var offsetX := (i - 2) as real * 0.5;
      spawns := spawns + [Placed(SpawnName(name, i), Vec3(location.x + offsetX, location.y, location.z))];
    }
    assert forall j :: 0 <= j < 5 ==> spawns[j] == HelperSpawns(name, location)[j];
  }

  // ---------------------------------------------------------------
  // Properties of the names and places

  lemma CommonPrefix(p: string, a: string, b: string)
    requires p + a == p + b
    ensures a == b
  {
    assert a == (p + a)[|p|..];
    assert b == (p + b)[|p|..];
  }

  /** No two spawns of a stop share a name. */
  lemma SpawnNamesDistinct(stop: string, i: nat, j: nat)
    requires i != j
    ensures SpawnName(stop, i) != SpawnName(stop, j)
  {
    if SpawnName(stop, i) == SpawnName(stop, j) {
      CommonPrefix(stop + ".", Pad3(i), Pad3(j));
      Pad3Injective(i, j);
    }
  }

  /** No trigger is named like a spawn, of its own stop or of any other:
      a trigger's name ends in 'r', a spawn's in a digit. */
  lemma TriggerIsNotASpawn(stop: string, other: string, i: nat)
    ensures TriggerName(stop) != SpawnName(other, i)
  {
    var t := TriggerName(stop);
    var d := NatToString(i);
    var sp := SpawnName(other, i);
    assert t[|t| - 1] == 'r';
    assert sp[|sp| - 1] == d[|d| - 1];
  }

  /** A spawn's name is the stop's name, a dot, and its index in at least
      3 digits (exactly 3 below 1000), which read back as the index; so the
      names follow the list order. */
  lemma SpawnNameSuffix(stop: string, i: nat)
    ensures SpawnName(stop, i)[..|stop| + 1] == stop + "."
    ensures DigitsValue(SpawnName(stop, i)[|stop| + 1..]) == i
    ensures i < 1000 ==> |SpawnName(stop, i)| == |stop| + 4
  {
    assert SpawnName(stop, i)[|stop| + 1..] == Pad3(i);
    Pad3Value(i);
    Pad3Length(i);
  }

  /** The helper script's five spawns run from `.000` to `.004`, the
      middle one at the stop itself. */
  lemma HelperSpawnRange(stop: string, location: Vec3)
    ensures HelperSpawns(stop, location)[0].name == stop + ".000"
    ensures HelperSpawns(stop, location)[4].name == stop + ".004"
    ensures HelperSpawns(stop, location)[2].location == location
  {
    assert NatToString(0) == "0";
    assert NatToString(4) == "4";
  }

  /** Neighbouring spawns are exactly `spacing` apart along x and level
      with each other. */
  lemma SpawnsEvenlySpaced(location: Vec3, count: int, spacing: real, i: nat)
    ensures SpawnLocation(location, count, spacing, i + 1).x - SpawnLocation(location, count, spacing, i).x == spacing
    ensures SpawnLocation(location, count, spacing, i + 1).y == SpawnLocation(location, count, spacing, i).y
    ensures SpawnLocation(location, count, spacing, i + 1).z == SpawnLocation(location, count, spacing, i).z
  {
    var d := (i - count / 2) as real;
    assert ((i + 1) - count / 2) as real == d + 1.0;
    assert (d + 1.0) * spacing == d * spacing + spacing;
  }

  /** For an odd count the spawns sit symmetrically about the stop, the
      middle one directly at its x. */
  lemma SpawnsCentred(location: Vec3, count: nat, spacing: real, i: nat)
    requires count % 2 == 1 && i < count
    ensures SpawnLocation(location, count, spacing, i).x - location.x
         == -(SpawnLocation(location, count, spacing, count - 1 - i).x - location.x)
    ensures SpawnLocation(location, count, spacing, count / 2).x == location.x
  {
    var h := count / 2;
    assert count == 2 * h + 1;
    var a := (i - h) as real;
    var b := ((count - 1 - i) - h) as real;
    assert b == -a;
    assert b * spacing == -(a * spacing);
  }
}
