/** What the two passes of parse_osm_json (osm_to_pbsu.py:28-89) extract
    from an element list, as functions of the list. The first pass builds
    the node index and collects stops; the second resolves every way's node
    ids through the COMPLETE index and classifies the way as a road, a
    building, both or neither. Each function is defined on a prefix of the
    list, which is how the loops of `Converter.OsmToPbsuConverter.ParseOsmJson`
    grow them. */
module Extraction {
  import opened Text
  import opened Runtime
  import opened OsmEntities
  import opened BuildingHeight

  /** nodes_dict: node id to the coordinates of the LAST node with that id. */
  type NodeIndex = map<int, Point>

  function IndexNodes(es: seq<Element>): NodeIndex {
    if |es| == 0 then map[]
    else
      var e := es[|es| - 1];
      if e.Node? then IndexNodes(es[..|es| - 1])[e.id := PointOf(e)] else IndexNodes(es[..|es| - 1])
  }

  /** The stops of the first pass, in input order. */
  function StopsOf(es: seq<Element>): (stops: seq<Stop>)
    ensures |stops| <= |es|
  {
    if |es| == 0 then []
    else
      var e := es[|es| - 1];
      StopsOf(es[..|es| - 1]) + (if e.Node? && IsStopTags(e.tags) then [StopOf(e)] else [])
  }

  /** way_nodes: the ids found in the index, in order, the others skipped. */
  function Resolve(ids: seq<int>, index: NodeIndex): (pts: seq<Point>)
    ensures |pts| <= |ids|
  {
    if |ids| == 0 then []
    else
      var id := ids[|ids| - 1];
      Resolve(ids[..|ids| - 1], index) + (if id in index then [index[id]] else [])
  }

  function RoadOf(e: Element, index: NodeIndex): seq<Road>
    requires e.Way?
  {
    var pts := Resolve(e.nodes, index);
    if IsRoadTags(e.tags) && pts != [] then [Road(e.id, pts, e.tags)] else []
  }

  function BuildingOf(e: Element, index: NodeIndex, rt: Runtime): seq<Building>
    requires e.Way?
  {
    var pts := Resolve(e.nodes, index);
    if IsBuildingTags(e.tags) && pts != [] then [Building(e.id, pts, e.tags, ExtractBuildingHeight(e.tags, rt))] else []
  }

  /** The roads of the second pass, in input order. */
  function RoadsOf(es: seq<Element>, index: NodeIndex): (roads: seq<Road>)
    ensures |roads| <= |es|
  {
    if |es| == 0 then []
    else
      var e := es[|es| - 1];
      RoadsOf(es[..|es| - 1], index) + (if e.Way? then RoadOf(e, index) else [])
  }

  /** The buildings of the second pass, in input order. */
  function BuildingsOf(es: seq<Element>, index: NodeIndex, rt: Runtime): (bs: seq<Building>)
    ensures |bs| <= |es|
  {
    if |es| == 0 then []
    else
      var e := es[|es| - 1];
      BuildingsOf(es[..|es| - 1], index, rt) + (if e.Way? then BuildingOf(e, index, rt) else [])
  }

  // ---------------------------------------------------------------
  // The node index

  /** An id is indexed exactly when some node of the list carries it. */
  lemma {:induction false} IndexNodesDomain(es: seq<Element>, id: int)
    ensures id in IndexNodes(es) <==> exists i :: 0 <= i < |es| && es[i].Node? && es[i].id == id
  {
    if |es| > 0 {
      var p := es[..|es| - 1];
      IndexNodesDomain(p, id);
      if id in IndexNodes(p) {
        var i :| 0 <= i < |p| && p[i].Node? && p[i].id == id;
        assert es[i] == p[i];
      }
      if exists i :: 0 <= i < |es| && es[i].Node? && es[i].id == id {
        var i :| 0 <= i < |es| && es[i].Node? && es[i].id == id;
        if i < |p| {
          assert p[i] == es[i];
        }
      }
    }
  }

  /** The index holds the coordinates of the last node with a given id. */
  lemma {:induction false} IndexNodesLast(es: seq<Element>, i: nat)
    requires i < |es| && es[i].Node?
    requires forall j :: i < j < |es| ==> !(es[j].Node? && es[j].id == es[i].id)
    ensures es[i].id in IndexNodes(es) && IndexNodes(es)[es[i].id] == PointOf(es[i])
  {
    if i < |es| - 1 {
      var p := es[..|es| - 1];
      assert p[i] == es[i];
      forall j | i < j < |p|
        ensures !(p[j].Node? && p[j].id == p[i].id)
      {
        assert p[j] == es[j];
      }
      IndexNodesLast(p, i);
    }
  }

  /** Ways contribute nothing to the index and nodes nothing to the roads or
      buildings, which is what makes the passes order-independent. */
  lemma {:induction false} IndexNodesAppend(a: seq<Element>, b: seq<Element>)
    requires forall k :: 0 <= k < |b| ==> !b[k].Node?
    ensures IndexNodes(a + b) == IndexNodes(a)
  {
    if |b| > 0 {
      assert (a + b)[..|a + b| - 1] == a + b[..|b| - 1];
      IndexNodesAppend(a, b[..|b| - 1]);
    } else {
      assert a + b == a;
    }
  }

  lemma {:induction false} IndexNodesPrepend(a: seq<Element>, b: seq<Element>)
    requires forall k :: 0 <= k < |a| ==> !a[k].Node?
    ensures IndexNodes(a + b) == IndexNodes(b)
  {
    if |b| == 0 {
      assert a + b == a;
      assert a == [] + a;
      IndexNodesAppend([], a);
    } else {
      assert (a + b)[..|a + b| - 1] == a + b[..|b| - 1];
      IndexNodesPrepend(a, b[..|b| - 1]);
    }
  }

  // ---------------------------------------------------------------
  // Stops

  lemma {:induction false} StopsOfAppend(a: seq<Element>, b: seq<Element>)
    ensures StopsOf(a + b) == StopsOf(a) + StopsOf(b)
  {
    if |b| == 0 {
      assert a + b == a;
    } else {
      assert (a + b)[..|a + b| - 1] == a + b[..|b| - 1];
      StopsOfAppend(a, b[..|b| - 1]);
    }
  }

  /** The node e is extracted as the stop s. */
  predicate YieldsStop(e: Element, s: Stop) {
    e.Node? && IsStopTags(e.tags) && s == StopOf(e)
  }

  /** A stop is extracted exactly from each node whose tags pass the stop
      test, with the name defaulted to "Bus Stop <id>". */
  lemma {:induction false} StopsOfMember(es: seq<Element>, s: Stop)
    ensures s in StopsOf(es) <==> exists i :: 0 <= i < |es| && YieldsStop(es[i], s)
  {
    if |es| > 0 {
      var p := es[..|es| - 1];
      StopsOfMember(p, s);
      StopsOfLast(es, s);
      ExistsStopLast(es, p, s);
    }
  }

  lemma StopsOfLast(es: seq<Element>, s: Stop)
    requires |es| > 0
    ensures s in StopsOf(es) <==> s in StopsOf(es[..|es| - 1]) || YieldsStop(es[|es| - 1], s)
  {
  }

  lemma ExistsStopLast(es: seq<Element>, p: seq<Element>, s: Stop)
    requires |es| > 0 && p == es[..|es| - 1]
    ensures (exists i :: 0 <= i < |es| && YieldsStop(es[i], s))
        <==> (exists i :: 0 <= i < |p| && YieldsStop(p[i], s)) || YieldsStop(es[|es| - 1], s)
  {
    if exists i :: 0 <= i < |p| && YieldsStop(p[i], s) {
      var i :| 0 <= i < |p| && YieldsStop(p[i], s);
      assert es[i] == p[i];
    }
    if exists i :: 0 <= i < |es| && YieldsStop(es[i], s) {
      var i :| 0 <= i < |es| && YieldsStop(es[i], s);
      if i < |p| {
        assert p[i] == es[i];
      }
    }
  }

  /** Nodes that are not stops and elements that are not nodes yield no stop. */
  lemma {:induction false} StopsOfNone(es: seq<Element>)
    requires forall k :: 0 <= k < |es| ==> !(es[k].Node? && IsStopTags(es[k].tags))
    ensures StopsOf(es) == []
  {
    if |es| > 0 {
      StopsOfNone(es[..|es| - 1]);
    }
  }

  // ---------------------------------------------------------------
  // Resolving a way's node ids

  lemma {:induction false} ResolveAppend(a: seq<int>, b: seq<int>, index: NodeIndex)
    ensures Resolve(a + b, index) == Resolve(a, index) + Resolve(b, index)
  {
    if |b| == 0 {
      assert a + b == a;
    } else {
      assert (a + b)[..|a + b| - 1] == a + b[..|b| - 1];
      ResolveAppend(a, b[..|b| - 1], index);
    }
  }

  /** When every id is indexed, the way keeps one point per id, in order. */
  lemma {:induction false} ResolveAllKnown(ids: seq<int>, index: NodeIndex)
    requires forall k :: 0 <= k < |ids| ==> ids[k] in index
    ensures |Resolve(ids, index)| == |ids|
    ensures forall k :: 0 <= k < |ids| ==> Resolve(ids, index)[k] == index[ids[k]]
  {
    if |ids| > 0 {
      ResolveAllKnown(ids[..|ids| - 1], index);
    }
  }

  /** A way none of whose ids is indexed resolves to nothing and is dropped. */
  lemma {:induction false} ResolveNoneKnown(ids: seq<int>, index: NodeIndex)
    requires forall k :: 0 <= k < |ids| ==> ids[k] !in index
    ensures Resolve(ids, index) == []
  {
    if |ids| > 0 {
      ResolveNoneKnown(ids[..|ids| - 1], index);
    }
  }

  /** Every resolved point is the indexed point of one of the way's ids. */
  lemma {:induction false} ResolveSound(ids: seq<int>, index: NodeIndex)
    ensures forall p :: p in Resolve(ids, index) ==>
      exists k :: 0 <= k < |ids| && ids[k] in index && index[ids[k]] == p
  {
    if |ids| > 0 {
      var q := ids[..|ids| - 1];
      ResolveSound(q, index);
      forall p | p in Resolve(ids, index)
        ensures exists k :: 0 <= k < |ids| && ids[k] in index && index[ids[k]] == p
      {
        if p in Resolve(q, index) {
          var k :| 0 <= k < |q| && q[k] in index && index[q[k]] == p;
          assert ids[k] == q[k];
        } else {
          assert ids[|ids| - 1] in index && index[ids[|ids| - 1]] == p;
        }
      }
    }
  }

  // ---------------------------------------------------------------
  // Roads and buildings

  lemma {:induction false} RoadsOfAppend(a: seq<Element>, b: seq<Element>, index: NodeIndex)
    ensures RoadsOf(a + b, index) == RoadsOf(a, index) + RoadsOf(b, index)
  {
    if |b| == 0 {
      assert a + b == a;
    } else {
      assert (a + b)[..|a + b| - 1] == a + b[..|b| - 1];
      RoadsOfAppend(a, b[..|b| - 1], index);
    }
  }

  lemma {:induction false} BuildingsOfAppend(a: seq<Element>, b: seq<Element>, index: NodeIndex, rt: Runtime)
    ensures BuildingsOf(a + b, index, rt) == BuildingsOf(a, index, rt) + BuildingsOf(b, index, rt)
  {
    if |b| == 0 {
      assert a + b == a;
    } else {
      assert (a + b)[..|a + b| - 1] == a + b[..|b| - 1];
      BuildingsOfAppend(a, b[..|b| - 1], index, rt);
    }
  }

  lemma {:induction false} NoWaysNoRoads(es: seq<Element>, index: NodeIndex, rt: Runtime)
    requires forall k :: 0 <= k < |es| ==> !es[k].Way?
    ensures RoadsOf(es, index) == [] && BuildingsOf(es, index, rt) == []
  {
    if |es| > 0 {
      NoWaysNoRoads(es[..|es| - 1], index, rt);
    }
  }

  /** The way e is extracted as the road r. */
  predicate YieldsRoad(e: Element, index: NodeIndex, r: Road) {
    e.Way? && IsRoadTags(e.tags) && Resolve(e.nodes, index) != []
    && r == Road(e.id, Resolve(e.nodes, index), e.tags)
  }

  /** The way e is extracted as the building b. */
  predicate YieldsBuilding(e: Element, index: NodeIndex, rt: Runtime, b: Building) {
    e.Way? && IsBuildingTags(e.tags) && Resolve(e.nodes, index) != []
    && b == Building(e.id, Resolve(e.nodes, index), e.tags, ExtractBuildingHeight(e.tags, rt))
  }

  lemma RoadsOfLast(es: seq<Element>, index: NodeIndex, r: Road)
    requires |es| > 0
    ensures r in RoadsOf(es, index) <==> r in RoadsOf(es[..|es| - 1], index) || YieldsRoad(es[|es| - 1], index, r)
  {
  }

  lemma BuildingsOfLast(es: seq<Element>, index: NodeIndex, rt: Runtime, b: Building)
    requires |es| > 0
    ensures b in BuildingsOf(es, index, rt) <==> b in BuildingsOf(es[..|es| - 1], index, rt) || YieldsBuilding(es[|es| - 1], index, rt, b)
  {
  }

  /** A road is extracted exactly from each way with an allow-listed highway
      tag and at least one resolvable node. */
  lemma {:induction false} RoadsOfMember(es: seq<Element>, index: NodeIndex, r: Road)
    ensures r in RoadsOf(es, index) <==> exists i :: 0 <= i < |es| && YieldsRoad(es[i], index, r)
  {
    if |es| > 0 {
      var p := es[..|es| - 1];
      RoadsOfMember(p, index, r);
      RoadsOfLast(es, index, r);
      ExistsRoadLast(es, p, index, r);
    }
  }

  lemma ExistsRoadLast(es: seq<Element>, p: seq<Element>, index: NodeIndex, r: Road)
    requires |es| > 0 && p == es[..|es| - 1]
    ensures (exists i :: 0 <= i < |es| && YieldsRoad(es[i], index, r))
        <==> (exists i :: 0 <= i < |p| && YieldsRoad(p[i], index, r)) || YieldsRoad(es[|es| - 1], index, r)
  {
    if exists i :: 0 <= i < |p| && YieldsRoad(p[i], index, r) {
      var i :| 0 <= i < |p| && YieldsRoad(p[i], index, r);
      assert es[i] == p[i];
    }
    if exists i :: 0 <= i < |es| && YieldsRoad(es[i], index, r) {
      var i :| 0 <= i < |es| && YieldsRoad(es[i], index, r);
      if i < |p| {
        assert p[i] == es[i];
      }
    }
  }

  /** A building is extracted exactly from each way with a non-empty
      `building` tag and at least one resolvable node, its height given by
      the fallback chain. */
  lemma {:induction false} BuildingsOfMember(es: seq<Element>, index: NodeIndex, rt: Runtime, b: Building)
    ensures b in BuildingsOf(es, index, rt) <==> exists i :: 0 <= i < |es| && YieldsBuilding(es[i], index, rt, b)
  {
    if |es| > 0 {
      var p := es[..|es| - 1];
      BuildingsOfMember(p, index, rt, b);
      BuildingsOfLast(es, index, rt, b);
      ExistsBuildingLast(es, p, index, rt, b);
    }
  }

  lemma ExistsBuildingLast(es: seq<Element>, p: seq<Element>, index: NodeIndex, rt: Runtime, b: Building)
    requires |es| > 0 && p == es[..|es| - 1]
    ensures (exists i :: 0 <= i < |es| && YieldsBuilding(es[i], index, rt, b))
        <==> (exists i :: 0 <= i < |p| && YieldsBuilding(p[i], index, rt, b)) || YieldsBuilding(es[|es| - 1], index, rt, b)
  {
    if exists i :: 0 <= i < |p| && YieldsBuilding(p[i], index, rt, b) {
      var i :| 0 <= i < |p| && YieldsBuilding(p[i], index, rt, b);
      assert es[i] == p[i];
    }
    if exists i :: 0 <= i < |es| && YieldsBuilding(es[i], index, rt, b) {
      var i :| 0 <= i < |es| && YieldsBuilding(es[i], index, rt, b);
      if i < |p| {
        assert p[i] == es[i];
      }
    }
  }

  /** Listing the ways before the nodes they use changes nothing: the whole
      index is built before the first way is resolved. */
  lemma WaysBeforeNodes(nodes: seq<Element>, ways: seq<Element>, rt: Runtime)
    requires forall k :: 0 <= k < |nodes| ==> nodes[k].Node?
    requires forall k :: 0 <= k < |ways| ==> ways[k].Way?
    ensures IndexNodes(ways + nodes) == IndexNodes(nodes + ways)
    ensures StopsOf(ways + nodes) == StopsOf(nodes + ways)
    ensures RoadsOf(ways + nodes, IndexNodes(ways + nodes)) == RoadsOf(nodes + ways, IndexNodes(nodes + ways))
    ensures BuildingsOf(ways + nodes, IndexNodes(ways + nodes), rt)
         == BuildingsOf(nodes + ways, IndexNodes(nodes + ways), rt)
  {
    IndexNodesPrepend(ways, nodes);
    IndexNodesAppend(nodes, ways);
    var index := IndexNodes(nodes);
    StopsOfAppend(ways, nodes);
    StopsOfAppend(nodes, ways);
    StopsOfNone(ways);
    RoadsOfAppend(ways, nodes, index);
    RoadsOfAppend(nodes, ways, index);
    BuildingsOfAppend(ways, nodes, index, rt);
    BuildingsOfAppend(nodes, ways, index, rt);
    NoWaysNoRoads(nodes, index, rt);
  }

  /** The nodes of a list, in order. */
  function NodesOf(es: seq<Element>): (ns: seq<Element>)
    ensures |ns| <= |es|
    ensures forall k :: 0 <= k < |ns| ==> ns[k].Node?
  {
    if |es| == 0 then []
    else NodesOf(es[..|es| - 1]) + (if es[|es| - 1].Node? then [es[|es| - 1]] else [])
  }

  /** The ways of a list, in order. */
  function WaysOf(es: seq<Element>): (ws: seq<Element>)
    ensures |ws| <= |es|
    ensures forall k :: 0 <= k < |ws| ==> ws[k].Way?
  {
    if |es| == 0 then []
    else WaysOf(es[..|es| - 1]) + (if es[|es| - 1].Way? then [es[|es| - 1]] else [])
  }

  /** The index depends only on the nodes, in their order. */
  lemma {:induction false} IndexOnlyNodes(es: seq<Element>)
    ensures IndexNodes(es) == IndexNodes(NodesOf(es))
  {
    if |es| > 0 {
      var p := es[..|es| - 1];
      IndexOnlyNodes(p);
      if es[|es| - 1].Node? {
        LastOfNodes(es);
      } else {
        assert NodesOf(es) == NodesOf(p);
      }
    }
  }

  /** So do the stops. */
  lemma {:induction false} StopsOnlyNodes(es: seq<Element>)
    ensures StopsOf(es) == StopsOf(NodesOf(es))
  {
    if |es| > 0 {
      var p := es[..|es| - 1];
      StopsOnlyNodes(p);
      if es[|es| - 1].Node? {
        LastOfNodes(es);
      } else {
        assert NodesOf(es) == NodesOf(p);
      }
    }
  }

  lemma LastOfNodes(es: seq<Element>)
    requires |es| > 0 && es[|es| - 1].Node?
    ensures var ns := NodesOf(es);
      |ns| > 0 && ns[..|ns| - 1] == NodesOf(es[..|es| - 1]) && ns[|ns| - 1] == es[|es| - 1]
  {
  }

  /** The roads depend only on the ways, in their order. */
  lemma {:induction false} RoadsOnlyWays(es: seq<Element>, index: NodeIndex)
    ensures RoadsOf(es, index) == RoadsOf(WaysOf(es), index)
  {
    if |es| > 0 {
      var p := es[..|es| - 1];
      RoadsOnlyWays(p, index);
      if es[|es| - 1].Way? {
        LastOfWays(es);
      } else {
        assert WaysOf(es) == WaysOf(p);
      }
    }
  }

  /** So do the buildings. */
  lemma {:induction false} BuildingsOnlyWays(es: seq<Element>, index: NodeIndex, rt: Runtime)
    ensures BuildingsOf(es, index, rt) == BuildingsOf(WaysOf(es), index, rt)
  {
    if |es| > 0 {
      var p := es[..|es| - 1];
      BuildingsOnlyWays(p, index, rt);
      if es[|es| - 1].Way? {
        LastOfWays(es);
      } else {
        assert WaysOf(es) == WaysOf(p);
      }
    }
  }

  lemma LastOfWays(es: seq<Element>)
    requires |es| > 0 && es[|es| - 1].Way?
    ensures var ws := WaysOf(es);
      |ws| > 0 && ws[..|ws| - 1] == WaysOf(es[..|es| - 1]) && ws[|ws| - 1] == es[|es| - 1]
  {
  }

  /** However the nodes and ways are interleaved, the extraction is the
      same as long as each keeps its own order: the whole index is built
      before the first way is resolved. */
  lemma AnyInterleaving(es1: seq<Element>, es2: seq<Element>, rt: Runtime)
    requires NodesOf(es1) == NodesOf(es2) && WaysOf(es1) == WaysOf(es2)
    ensures IndexNodes(es1) == IndexNodes(es2)
    ensures StopsOf(es1) == StopsOf(es2)
    ensures RoadsOf(es1, IndexNodes(es1)) == RoadsOf(es2, IndexNodes(es2))
    ensures BuildingsOf(es1, IndexNodes(es1), rt) == BuildingsOf(es2, IndexNodes(es2), rt)
  {
    IndexOnlyNodes(es1);
    IndexOnlyNodes(es2);
    StopsOnlyNodes(es1);
    StopsOnlyNodes(es2);
    var index := IndexNodes(es1);
    RoadsOnlyWays(es1, index);
    RoadsOnlyWays(es2, index);
    BuildingsOnlyWays(es1, index, rt);
    BuildingsOnlyWays(es2, index, rt);
  }

  /** The road test and the building test are independent: a residential
      street tagged as a building is listed in both. */
  lemma RoadAndBuilding(rt: Runtime)
    ensures var es := [
        Node(1, 48.0, 2.0, map[]), Node(2, 48.1, 2.1, map[]),
        Way(10, [1, 2], map["highway" := "residential", "building" := "yes"])];
      |RoadsOf(es, IndexNodes(es))| == 1 && |BuildingsOf(es, IndexNodes(es), rt)| == 1
  {
    var es := [
        Node(1, 48.0, 2.0, map[]), Node(2, 48.1, 2.1, map[]),
        Way(10, [1, 2], map["highway" := "residential", "building" := "yes"])];
    var index := IndexNodes(es);
    assert es[..2] == [es[0], es[1]];
    assert es[..2][..1] == [es[0]];
    assert [es[0]][..0] == [];
    assert IndexNodes([es[0]]) == map[1 := Point(48.0, 2.0)];
    assert IndexNodes(es[..2]) == map[1 := Point(48.0, 2.0), 2 := Point(48.1, 2.1)];
    assert index == map[1 := Point(48.0, 2.0), 2 := Point(48.1, 2.1)];
    assert [1, 2][..1] == [1];
    assert [1][..0] == [];
    assert Resolve([1], index) == [Point(48.0, 2.0)];
    assert Resolve([1, 2], index) == [Point(48.0, 2.0), Point(48.1, 2.1)];
    assert "residential" in RoadHighways;
    NoWaysNoRoads(es[..2], index, rt);
  }
}
