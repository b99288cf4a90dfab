/** The mesh builders of the Blender scripts: which vertices a mesh has and
    which vertex indices each face lists. A building's vertices are the
    footprint's points and the same points raised by the height, and are
    modelled exactly. A strip's vertices (road, sidewalk) are offset
    sideways along the normalised road direction, which takes a square
    root; each is recorded by the input point it comes from and which of
    its two copies it is. */
module Mesh {
  import opened Text
  import opened Projection

  /** Vertex `copy` (0 or 1) of input point `point`: left/right for a road,
      inner/outer for a sidewalk, bottom/top for a building. */
  datatype Corner = Corner(point: nat, copy: nat)

  datatype Mesh<V> = Mesh(verts: seq<V>, faces: seq<seq<nat>>)

  /** Every face lists only vertices the mesh has. */
  predicate WellFormed<V>(m: Mesh<V>) {
    forall f, k :: 0 <= f < |m.faces| && 0 <= k < |m.faces[f]| ==> m.faces[f][k] < |m.verts|
  }

  /** A named object, as `bpy.data.objects.new(name, mesh)` makes it. */
  datatype Named<V> = Named(name: string, mesh: Mesh<V>)

  // ---------------------------------------------------------------
  // Strips: create_road_mesh, create_sidewalk, create_road_between_points

  /** The quad joining point i - 1 to point i, given the two vertices per
      point appended so far: `base = (i - 1) * 2`. */
  function StripQuad(i: nat): seq<nat>
    requires i >= 1
  {
    var base := (i - 1) * 2;
    [base, base + 1, base + 3, base + 2]
  }

  /** The loop shared by the three strip builders: two vertices per point,
      and from the second point on the quad back to the previous point. */
  method StripMesh(n: nat) returns (m: Mesh<Corner>)
    ensures |m.verts| == 2 * n
    ensures forall i :: 0 <= i < n ==> m.verts[2 * i] == Corner(i, 0) && m.verts[2 * i + 1] == Corner(i, 1)
    ensures |m.faces| == if n == 0 then 0 else n - 1
    ensures forall k :: 0 <= k < |m.faces| ==> m.faces[k] == StripQuad(k + 1)
    ensures WellFormed(m)
  {
    var verts: seq<Corner> := [];
    var faces: seq<seq<nat>> := [];
    for i := 0 to n
      invariant |verts| == 2 * i
      invariant forall j :: 0 <= j < i ==> verts[2 * j] == Corner(j, 0) && verts[2 * j + 1] == Corner(j, 1)
      invariant |faces| == if i == 0 then 0 else i - 1
      invariant forall k :: 0 <= k < |faces| ==> faces[k] == StripQuad(k + 1)
      invariant forall f, k :: 0 <= f < |faces| && 0 <= k < |faces[f]| ==> faces[f][k] < |verts|
    {
      verts := verts + [Corner(i, 0), Corner(i, 1)];
      if i > 0 {
        var base := (i - 1) * 2;
        faces := faces + [[base, base + 1, base + 3, base + 2]];
      }
    }
    m := Mesh(verts, faces);
  }

  /** Face k of a strip joins both vertices of point k to both vertices of
      point k + 1, going round the quad: left k, right k, right k + 1, left k + 1. */
  lemma StripFaceJoinsNeighbours(m: Mesh<Corner>, n: nat, k: nat)
    requires |m.verts| == 2 * n
    requires forall i :: 0 <= i < n ==> m.verts[2 * i] == Corner(i, 0) && m.verts[2 * i + 1] == Corner(i, 1)
    requires |m.faces| == n - 1 && k < n - 1
    requires forall j :: 0 <= j < |m.faces| ==> m.faces[j] == StripQuad(j + 1)
    ensures var f := m.faces[k];
      && |f| == 4 && f[0] < |m.verts| && f[1] < |m.verts| && f[2] < |m.verts| && f[3] < |m.verts|
      && m.verts[f[0]] == Corner(k, 0) && m.verts[f[1]] == Corner(k, 1)
      && m.verts[f[2]] == Corner(k + 1, 1) && m.verts[f[3]] == Corner(k + 1, 0)
  {
    assert m.faces[k] == [2 * k, 2 * k + 1, 2 * (k + 1) + 1, 2 * (k + 1)];
  }

  /** Consecutive strip faces share an edge: the far side of face k is the
      near side of face k + 1. */
  lemma StripFacesShareEdge(k: nat)
    ensures StripQuad(k + 1)[3] == StripQuad(k + 2)[0]
    ensures StripQuad(k + 1)[2] == StripQuad(k + 2)[1]
  {
  }

  /** create_road_mesh (ai_automation.py:127-183): nothing for fewer than
      two points, otherwise one strip named after the road. */
  method CreateRoadMesh(points: seq<Vec3>, name: string) returns (road: Option<Named<Corner>>)
    ensures road.None? <==> |points| < 2
    ensures road.Some? ==>
      (&& road.value.name == name
       && |road.value.mesh.verts| == 2 * |points|
       && |road.value.mesh.faces| == |points| - 1
       && (forall k :: 0 <= k < |points| - 1 ==> road.value.mesh.faces[k] == StripQuad(k + 1))
       && WellFormed(road.value.mesh))
  {
    if |points| < 2 {
      return None;
    }
    var m := StripMesh(|points|);
    road := Some(Named(name, m));
  }

  /** create_sidewalk (ai_automation.py:185-245): no sidewalks for fewer
      than two points, otherwise a left and a right strip. */
  method CreateSidewalk(points: seq<Vec3>, name: string) returns (sidewalks: seq<Named<Corner>>)
    ensures |points| < 2 ==> sidewalks == []
    ensures |points| >= 2 ==>
      (&& |sidewalks| == 2
       && sidewalks[0].name == name + "_Left" && sidewalks[1].name == name + "_Right"
       && (forall s :: 0 <= s < 2 ==>
             (&& |sidewalks[s].mesh.verts| == 2 * |points|
              && |sidewalks[s].mesh.faces| == |points| - 1
              && (forall k :: 0 <= k < |points| - 1 ==> sidewalks[s].mesh.faces[k] == StripQuad(k + 1))
              && WellFormed(sidewalks[s].mesh))))
  {
    if |points| < 2 {
      return [];
    }
    sidewalks := [];
    var sides := ["Left", "Right"];
    for s := 0 to 2
      invariant |sidewalks| == s
      invariant forall t :: 0 <= t < s ==> sidewalks[t].name == name + "_" + sides[t]
      invariant forall t :: 0 <= t < s ==>
            |sidewalks[t].mesh.verts| == 2 * |points|
            && |sidewalks[t].mesh.faces| == |points| - 1
            && (forall k :: 0 <= k < |points| - 1 ==> sidewalks[t].mesh.faces[k] == StripQuad(k + 1))
            && WellFormed(sidewalks[t].mesh)
    {
      var m := StripMesh(|points|);
      sidewalks := sidewalks + [Named(name + "_" + sides[s], m)];
    }
  }

  /** create_road_between_points (automate_post_conversion.py:348-412): the
      same strip, always named "Road"; nothing for fewer than two points. */
  method CreateRoadBetweenPoints(points: seq<Vec3>) returns (road: Option<Named<Corner>>)
    ensures road.None? <==> |points| < 2
    ensures road.Some? ==>
      (&& road.value.name == "Road"
       && |road.value.mesh.verts| == 2 * |points|
       && |road.value.mesh.faces| == |points| - 1
       && (forall k :: 0 <= k < |points| - 1 ==> road.value.mesh.faces[k] == StripQuad(k + 1))
       && WellFormed(road.value.mesh))
  {
    if |points| < 2 {
      return None;
    }
    var m := StripMesh(|points|);
    road := Some(Named("Road", m));
  }

  // ---------------------------------------------------------------
  // Buildings: create_building_from_footprint

  /** list(range(a, b)) */
  function Range(a: nat, b: nat): (r: seq<nat>)
    requires a <= b
    ensures |r| == b - a
    ensures forall k :: 0 <= k < |r| ==> r[k] == a + k
    decreases b - a
  {
    if a == b then [] else [a] + Range(a + 1, b)
  }

  /** list.reverse() */
  function Reversed(s: seq<nat>): (r: seq<nat>)
    ensures |r| == |s|
    ensures forall k :: 0 <= k < |s| ==> r[k] == s[|s| - 1 - k]
  {
    if |s| == 0 then [] else Reversed(s[1..]) + [s[0]]
  }

  /** Side face i of an n-point footprint: `[i, next, next + n, i + n]`
      with `next = (i + 1) % n`. */
  function SideFace(i: nat, n: nat): seq<nat>
    requires i < n
  {
    var next := (i + 1) % n;
    [i, next, next + n, i + n]
  }

  /** The face list: bottom, top (reversed), then one side per edge. */
  method BuildingFaces(n: nat) returns (faces: seq<seq<nat>>)
    requires n >= 3
    ensures |faces| == n + 2
    ensures faces[0] == Range(0, n)
    ensures faces[1] == Reversed(Range(n, 2 * n))
    ensures forall i :: 0 <= i < n ==> faces[i + 2] == SideFace(i, n)
  {
    faces := [];
    var bottom := Range(0, n);
    faces := faces + [bottom];
    var top := Range(n, 2 * n);
    top := Reversed(top);
    faces := faces + [top];
    for i := 0 to n
      invariant |faces| == i + 2
      invariant faces[0] == Range(0, n) && faces[1] == Reversed(Range(n, 2 * n))
      invariant forall j :: 0 <= j < i ==> faces[j + 2] == SideFace(j, n)
    {
      var next := (i + 1) % n;
      faces := faces + [[i, next, next + n, i + n]];
    }
  }

  /** unity_to_blender (ai_automation.py:123-125): Unity's y (up) is
      Blender's z. */
  function UnityToBlender(p: Vec3): Vec3 {
    Vec3(p.x, p.z, p.y)
  }

  /** Swapping the axes twice gives the point back. */
  lemma UnityToBlenderInvolution(p: Vec3)
    ensures UnityToBlender(UnityToBlender(p)) == p
  {
  }

  /** A footprint point raised by `height` along Blender's vertical axis. */
  function Raised(v: Vec3, height: real): Vec3 {
    Vec3(v.x, v.y, v.z + height)
  }

  /** create_building_from_footprint (ai_automation.py:291-356): nothing for
      fewer than three points; otherwise the footprint's points as the base,
      each raised by `height` as the top, and n + 2 faces. */
  method CreateBuildingFromFootprint(footprint: seq<Vec3>, height: real, name: string)
    returns (building: Option<Named<Vec3>>)
    ensures building.None? <==> |footprint| < 3
    ensures building.Some? ==>
      var m := building.value.mesh;
      var n := |footprint|;
      && building.value.name == name
      && |m.verts| == 2 * n
      && (forall i :: 0 <= i < n ==> m.verts[i] == UnityToBlender(footprint[i]))
      && (forall i :: 0 <= i < n ==> m.verts[n + i] == Raised(m.verts[i], height))
      && |m.faces| == n + 2
      && m.faces[0] == Range(0, n)
      && m.faces[1] == Reversed(Range(n, 2 * n))
      && (forall i :: 0 <= i < n ==> m.faces[i + 2] == SideFace(i, n))
  {
    if |footprint| < 3 {
      return None;
    }
    var base: seq<Vec3> := [];
    for i := 0 to |footprint|
      invariant |base| == i
      invariant forall j :: 0 <= j < i ==> base[j] == UnityToBlender(footprint[j])
    {
      base := base + [UnityToBlender(footprint[i])];
    }
    var verts: seq<Vec3> := [];
    for i := 0 to |base|
      invariant verts == base[..i]
    {
      verts := verts + [base[i]];
    }
    for i := 0 to |base|
      invariant |verts| == |base| + i
      invariant verts[..|base|] == base
      invariant forall j :: 0 <= j < i ==> verts[|base| + j] == Raised(base[j], height)
    {
      verts := verts + [Raised(base[i], height)];
    }
    var n := |base|;
    var faces := BuildingFaces(n);
    building := Some(Named(name, Mesh(verts, faces)));
  }

  /** Every index of a building's faces is one of its 2n vertices. */
  lemma BuildingWellFormed<V>(m: Mesh<V>, n: nat)
    requires n >= 3 && |m.verts| == 2 * n && |m.faces| == n + 2
    requires m.faces[0] == Range(0, n)
    requires m.faces[1] == Reversed(Range(n, 2 * n))
    requires forall i :: 0 <= i < n ==> m.faces[i + 2] == SideFace(i, n)
    ensures WellFormed(m)
  {
    forall f, k | 0 <= f < |m.faces| && 0 <= k < |m.faces[f]|
      ensures m.faces[f][k] < |m.verts|
    {
      if f >= 2 {
        var i := f - 2;
        assert m.faces[f] == SideFace(i, n);
        assert (i + 1) % n < n;
      }
    }
  }

  /** Side i lists bottom i, bottom next, top next, top i: one wall between
      footprint points i and i + 1 (the last wall closes the ring). */
  lemma SideFaceCorners(m: Mesh<Vec3>, footprint: seq<Vec3>, height: real, i: nat)
    requires |footprint| >= 3 && i < |footprint|
    requires |m.verts| == 2 * |footprint| && |m.faces| == |footprint| + 2
    requires forall j :: 0 <= j < |footprint| ==> m.verts[j] == UnityToBlender(footprint[j])
    requires forall j :: 0 <= j < |footprint| ==> m.verts[|footprint| + j] == Raised(m.verts[j], height)
    requires forall j :: 0 <= j < |footprint| ==> m.faces[j + 2] == SideFace(j, |footprint|)
    ensures var n := |footprint|;
      var f := m.faces[i + 2];
      var next := if i == n - 1 then 0 else i + 1;
      && |f| == 4 && f[0] < |m.verts| && f[1] < |m.verts| && f[2] < |m.verts| && f[3] < |m.verts|
      && m.verts[f[0]] == UnityToBlender(footprint[i])
      && m.verts[f[1]] == UnityToBlender(footprint[next])
      && m.verts[f[2]] == Raised(UnityToBlender(footprint[next]), height)
      && m.verts[f[3]] == Raised(UnityToBlender(footprint[i]), height)
  {
    var n := |footprint|;
    var next := if i == n - 1 then 0 else i + 1;
    NextIndex(i, n);
    assert m.faces[i + 2] == SideFace(i, n);
    assert SideFace(i, n) == [i, next, next + n, i + n];
  }

  /** (i + 1) % n steps round the ring. */
  lemma NextIndex(i: nat, n: nat)
    requires i < n
    ensures (i + 1) % n == if i == n - 1 then 0 else i + 1
  {
  }

  /** Adjacent walls share their vertical edge, round the whole ring. */
  lemma SidesShareEdge(n: nat, i: nat)
    requires n >= 3 && i < n
    ensures SideFace(i, n)[1] == SideFace((i + 1) % n, n)[0]
    ensures SideFace(i, n)[2] == SideFace((i + 1) % n, n)[3]
  {
  }

  /** The top face lists the top vertices in the reverse of the bottom's
      order, so its normal points up while the bottom's points down. */
  lemma TopMirrorsBottom(n: nat, k: nat)
    requires n >= 3 && k < n
    ensures Reversed(Range(n, 2 * n))[k] == Range(0, n)[n - 1 - k] + n
  {
  }
}
