/** _extract_building_height (osm_to_pbsu.py:91-144): the first tier that
    parses wins, in the order `height`, `building:height`,
    `building:levels` (times 3.5), then a table keyed by the `building`
    tag. A value float() rejects falls through to the next tier, so the
    function never fails. Nothing keeps the result positive. */
module BuildingHeight {
  import opened Text
  import opened Runtime
  import opened OsmEntities

  /** s.replace('m', '').replace('M', ''): every 'm' and 'M' goes, wherever it is. */
  function RemoveUnits(s: string): (r: string)
    ensures |r| <= |s|
    ensures 'm' !in r && 'M' !in r
    ensures 'm' !in s && 'M' !in s ==> r == s
  {
    if |s| == 0 then ""
    else (if s[0] == 'm' || s[0] == 'M' then "" else [s[0]]) + RemoveUnits(s[1..])
  }

  /** Exactly the 'm' and 'M' characters are dropped. */
  lemma {:induction false} RemoveUnitsLength(s: string)
    ensures |RemoveUnits(s)| == |s| - multiset(s)['m'] - multiset(s)['M']
    decreases |s|
  {
    if |s| > 0 {
      assert s == [s[0]] + s[1..];
      assert multiset(s) == multiset([s[0]]) + multiset(s[1..]);
      RemoveUnitsLength(s[1..]);
    }
  }

  /** Each character is treated on its own: the characters other than 'm'
      and 'M' are kept, in order. */
  lemma {:induction false} RemoveUnitsConcat(a: string, b: string)
    ensures RemoveUnits(a + b) == RemoveUnits(a) + RemoveUnits(b)
    decreases |a|
  {
    if |a| == 0 {
      assert a + b == b;
    } else {
      var ab := a + b;
      assert ab[0] == a[0] && ab[1..] == a[1..] + b;
      RemoveUnitsConcat(a[1..], b);
      PrefixStep(RemoveUnits(ab), RemoveUnits(a), UnitFree(a[0]), RemoveUnits(a[1..] + b),
                 RemoveUnits(a[1..]), RemoveUnits(b));
    }
  }

  function UnitFree(c: char): string {
    if c == 'm' || c == 'M' then "" else [c]
  }

  /** The step of RemoveUnitsConcat on plain values. */
  lemma PrefixStep(whole: string, left: string, u: string, rest: string, y: string, z: string)
    requires whole == u + rest && rest == y + z && left == u + y
    ensures whole == left + z
  {
  }

  /** One character: removed when it is 'm' or 'M', kept otherwise. */
  lemma RemoveUnitsChar(c: char)
    ensures RemoveUnits([c]) == if c == 'm' || c == 'M' then "" else [c]
  {
    assert [c][1..] == "";
  }

  /** float(s.replace('m', '').replace('M', '').strip()) */
  function MetresValue(s: string, rt: Runtime): Option<real> {
    rt.parseFloat(Strip(RemoveUnits(s)))
  }

  /** float(s) * 3.5, with no unit removal and no strip. */
  function LevelsValue(s: string, rt: Runtime): Option<real> {
    match rt.parseFloat(s)
    case Some(levels) => Some(levels * 3.5)
    case None => None
  }

  const DefaultHeights: map<string, real> := map[
    "house" := 7.0, "residential" := 10.5, "apartments" := 21.0,
    "commercial" := 14.0, "retail" := 7.0, "industrial" := 10.0,
    "warehouse" := 8.0, "office" := 35.0, "hotel" := 28.0,
    "school" := 10.5, "university" := 14.0, "hospital" := 21.0,
    "church" := 15.0, "cathedral" := 25.0
  ]

  /** default_heights.get(tags.get('building', 'yes'), 10.0) */
  function TypeDefault(tags: Tags): real {
    var kind := if "building" in tags then tags["building"] else "yes";
    if kind in DefaultHeights then DefaultHeights[kind] else 10.0
  }

  /** The value a tier yields, or None when its tag is absent or does not parse. */
  function Tier(tags: Tags, key: string, rt: Runtime): Option<real> {
    if key !in tags then None
    else if key == "building:levels" then LevelsValue(tags[key], rt)
    else MetresValue(tags[key], rt)
  }

  function ExtractBuildingHeight(tags: Tags, rt: Runtime): real {
    if Tier(tags, "height", rt).Some? then Tier(tags, "height", rt).value
    else if Tier(tags, "building:height", rt).Some? then Tier(tags, "building:height", rt).value
    else if Tier(tags, "building:levels", rt).Some? then Tier(tags, "building:levels", rt).value
    else TypeDefault(tags)
  }

  /** The three tag tiers in the order the code tries them. */
  const TierKeys: seq<string> := ["height", "building:height", "building:levels"]

  /** The result is the value of the first tier that parses; when none
      parses it is the table value for the building type. */
  lemma HeightPrecedence(tags: Tags, rt: Runtime, i: nat)
    requires i < |TierKeys|
    requires Tier(tags, TierKeys[i], rt).Some?
    requires forall j :: 0 <= j < i ==> Tier(tags, TierKeys[j], rt).None?
    ensures ExtractBuildingHeight(tags, rt) == Tier(tags, TierKeys[i], rt).value
  {
    if i == 1 {
      assert Tier(tags, TierKeys[0], rt).None?;
    } else if i == 2 {
      assert Tier(tags, TierKeys[0], rt).None?;
      assert Tier(tags, TierKeys[1], rt).None?;
    }
  }

  lemma HeightDefault(tags: Tags, rt: Runtime)
    requires forall j :: 0 <= j < |TierKeys| ==> Tier(tags, TierKeys[j], rt).None?
    ensures ExtractBuildingHeight(tags, rt) == TypeDefault(tags)
    ensures TypeDefault(tags) in DefaultHeights.Values || TypeDefault(tags) == 10.0
  {
    assert Tier(tags, TierKeys[0], rt).None?;
    assert Tier(tags, TierKeys[1], rt).None?;
    assert Tier(tags, TierKeys[2], rt).None?;
  }

  /** A tag whose value float() rejects has the same effect as no tag at all. */
  lemma UnparseableFallsThrough(tags: Tags, rt: Runtime, key: string)
    requires key in TierKeys && key in tags
    requires Tier(tags, key, rt).None?
    ensures ExtractBuildingHeight(tags, rt) == ExtractBuildingHeight(tags - {key}, rt)
  {
    var t := tags - {key};
    forall k | k in TierKeys && k != key
      ensures Tier(t, k, rt) == Tier(tags, k, rt)
    {
    }
    assert Tier(t, key, rt).None?;
    assert TypeDefault(t) == TypeDefault(tags);
    assert Tier(t, "height", rt) == Tier(tags, "height", rt);
    assert Tier(t, "building:height", rt) == Tier(tags, "building:height", rt);
    assert Tier(t, "building:levels", rt) == Tier(tags, "building:levels", rt);
  }

  /** A height tag on its own gives its value in metres when that parses. */
  lemma HeightTag(raw: string, rt: Runtime)
    requires MetresValue(raw, rt).Some?
    ensures ExtractBuildingHeight(map["height" := raw], rt) == MetresValue(raw, rt).value
  {
  }

  /** "15m" loses its unit before parsing; every 'm' goes, not only a
      trailing one, so "1m5" reads as 15 too. */
  lemma HeightWithUnit(rt: Runtime)
    requires rt.parseFloat("15") == Some(15.0)
    ensures ExtractBuildingHeight(map["height" := "15m"], rt) == 15.0
    ensures ExtractBuildingHeight(map["height" := "1m5"], rt) == 15.0
  {
    StripUnchanged("15");
    UnitsDropped();
    HeightTag("15m", rt);
    HeightTag("1m5", rt);
  }

  lemma UnitsDropped()
    ensures RemoveUnits("15m") == "15"
    ensures RemoveUnits("1m5") == "15"
  {
    UnitDropped('1', '5');
  }

  lemma UnitDropped(a: char, b: char)
    requires a != 'm' && a != 'M' && b != 'm' && b != 'M'
    ensures RemoveUnits([a, b, 'm']) == [a, b]
    ensures RemoveUnits([a, 'm', b]) == [a, b]
  {
    assert [a, b, 'm'][1..] == [b, 'm'];
    assert [b, 'm'][1..] == ['m'];
    assert ['m'][1..] == [];
    assert RemoveUnits([b, 'm']) == [b];
    assert [a, 'm', b][1..] == ['m', b];
    assert ['m', b][1..] == [b];
  }

  /** Four floors at 3.5 m each. */
  lemma HeightFromLevels(rt: Runtime)
    requires rt.parseFloat("4") == Some(4.0)
    ensures ExtractBuildingHeight(map["building:levels" := "4"], rt) == 14.0
  {
  }

  lemma HeightFromBuildingHeight(rt: Runtime)
    requires rt.parseFloat("20") == Some(20.0)
    ensures ExtractBuildingHeight(map["building:height" := "20"], rt) == 20.0
  {
    assert RemoveUnits("20") == "20";
    StripUnchanged("20");
  }

  /** Zero floors give a zero height: the result need not be positive. */
  lemma ZeroLevelsGiveZero(rt: Runtime)
    requires rt.parseFloat("0") == Some(0.0)
    ensures ExtractBuildingHeight(map["building:levels" := "0", "building" := "yes"], rt) == 0.0
  {
  }

  /** With no height tags the building type decides; unknown types get 10. */
  lemma HeightFromType(rt: Runtime)
    ensures ExtractBuildingHeight(map["building" := "house"], rt) == 7.0
    ensures ExtractBuildingHeight(map["building" := "apartments"], rt) == 21.0
    ensures ExtractBuildingHeight(map["building" := "office"], rt) == 35.0
    ensures ExtractBuildingHeight(map["building" := "yes"], rt) == 10.0
    ensures ExtractBuildingHeight(map["building" := "garage"], rt) == 10.0
  {
    TypeOnly("house", rt);
    TypeOnly("apartments", rt);
    TypeOnly("office", rt);
    TypeOnly("yes", rt);
    TypeOnly("garage", rt);
  }

  /** A building tag on its own: the table decides. */
  lemma TypeOnly(kind: string, rt: Runtime)
    ensures ExtractBuildingHeight(map["building" := kind], rt) == TypeDefault(map["building" := kind])
    ensures TypeDefault(map["building" := kind]) == if kind in DefaultHeights then DefaultHeights[kind] else 10.0
  {
  }
}
