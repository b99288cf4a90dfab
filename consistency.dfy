/** What convert's output promises as a whole: the three fixed files keep
    their contents, one file per stop lies under its identifier, and the
    identifier of stop k is the same in entrypoints_list.txt, in
    entrypoints.txt, in the bus-stop file's name, in its `prefix=` line and
    in the geographic export. */
module Consistency {
  import opened Text
  import opened Runtime
  import opened Naming
  import opened OsmEntities
  import opened Projection
  import opened Emitters
  import opened Converter

  // ---------------------------------------------------------------
  // Paths never collide

  lemma AppendDiffers(p: string, a: string, b: string)
    requires |a| > 0 && |b| > 0 && a[0] != b[0]
    ensures p + a != p + b
  {
    assert (p + a)[|p|] == a[0];
    assert (p + b)[|p|] == b[0];
  }

  /** The map file, the list, the entry points and every bus-stop file have
      pairwise different paths. */
  lemma PathsDistinct(mapName: string, routeName: string, id: string)
    ensures MapPath(mapName) != ListPath(mapName, routeName)
    ensures MapPath(mapName) != EntrypointsPath(mapName, routeName)
    ensures ListPath(mapName, routeName) != EntrypointsPath(mapName, routeName)
    ensures BusstopPath(mapName, routeName, id) !in {MapPath(mapName), ListPath(mapName, routeName), EntrypointsPath(mapName, routeName)}
  {
    MapPathApart(mapName, routeName, id);
    BusstopPathApart(mapName, routeName, id);
    ListPathApart(mapName, routeName);
  }

  lemma MapPathApart(mapName: string, routeName: string, id: string)
    ensures MapPath(mapName) != ListPath(mapName, routeName)
    ensures MapPath(mapName) != EntrypointsPath(mapName, routeName)
    ensures MapPath(mapName) != BusstopPath(mapName, routeName, id)
  {
    var rest := "/tiles/" + routeName;
    assert ListPath(mapName, routeName) == mapName + (rest + "/entrypoints_list.txt");
    assert EntrypointsPath(mapName, routeName) == mapName + (rest + "/entrypoints.txt");
    assert BusstopPath(mapName, routeName, id) == mapName + (rest + "/aipeople/busstops/" + id + ".txt");
    AppendDiffers(mapName, ".map.txt", rest + "/entrypoints_list.txt");
    AppendDiffers(mapName, ".map.txt", rest + "/entrypoints.txt");
    AppendDiffers(mapName, ".map.txt", rest + "/aipeople/busstops/" + id + ".txt");
  }

  lemma BusstopPathApart(mapName: string, routeName: string, id: string)
    ensures BusstopPath(mapName, routeName, id) != ListPath(mapName, routeName)
    ensures BusstopPath(mapName, routeName, id) != EntrypointsPath(mapName, routeName)
  {
    var t := TilesDir(mapName, routeName) + "/";
    assert ListPath(mapName, routeName) == t + "entrypoints_list.txt";
    assert EntrypointsPath(mapName, routeName) == t + "entrypoints.txt";
    assert BusstopPath(mapName, routeName, id) == t + ("aipeople/busstops/" + id + ".txt");
    AppendDiffers(t, "entrypoints_list.txt", "aipeople/busstops/" + id + ".txt");
    AppendDiffers(t, "entrypoints.txt", "aipeople/busstops/" + id + ".txt");
  }

  lemma ListPathApart(mapName: string, routeName: string)
    ensures ListPath(mapName, routeName) != EntrypointsPath(mapName, routeName)
  {
    var e := TilesDir(mapName, routeName) + "/" + "entrypoints";
    assert ListPath(mapName, routeName) == e + "_list.txt";
    assert EntrypointsPath(mapName, routeName) == e + ".txt";
    AppendDiffers(e, "_list.txt", ".txt");
  }

  /** Different identifiers give different bus-stop files. */
  lemma BusstopPathInjective(mapName: string, routeName: string, a: string, b: string)
    requires BusstopPath(mapName, routeName, a) == BusstopPath(mapName, routeName, b)
    ensures a == b
  {
    var d := BusstopsDir(mapName, routeName);
    var pa := BusstopPath(mapName, routeName, a);
    assert |a| == |b|;
    assert a == pa[|d|..|d| + |a|];
  }

  // ---------------------------------------------------------------
  // The bus-stop writes

  /** A path no stop writes to keeps what it had. */
  lemma {:induction false} WriteBusstopsKeeps(files: map<string, string>, stops: seq<Stop>, mapName: string, routeName: string, rt: Runtime, p: string)
    requires forall k :: 0 <= k < |stops| ==> p != BusstopPath(mapName, routeName, Slug(stops[k].name, rt))
    ensures p in WriteBusstops(files, stops, mapName, routeName, rt) <==> p in files
    ensures p in files ==> WriteBusstops(files, stops, mapName, routeName, rt)[p] == files[p]
  {
    if |stops| > 0 {
      WriteBusstopsKeeps(files, stops[..|stops| - 1], mapName, routeName, rt, p);
    }
  }

  /** The file of stop k exists, and what it holds is the text of the last
      stop with the same identifier: a later duplicate overwrites. */
  lemma {:induction false} WriteBusstopsAt(files: map<string, string>, stops: seq<Stop>, mapName: string, routeName: string, rt: Runtime, k: nat)
    requires k < |stops|
    ensures var p := BusstopPath(mapName, routeName, Slug(stops[k].name, rt));
      p in WriteBusstops(files, stops, mapName, routeName, rt)
      && (exists j :: k <= j < |stops| && Slug(stops[j].name, rt) == Slug(stops[k].name, rt)
            && WriteBusstops(files, stops, mapName, routeName, rt)[p] == BusstopText(stops[j], rt))
  {
    var n := |stops| - 1;
    var p := BusstopPath(mapName, routeName, Slug(stops[k].name, rt));
    var last := BusstopPath(mapName, routeName, Slug(stops[n].name, rt));
    if p == last {
      BusstopPathInjective(mapName, routeName, Slug(stops[k].name, rt), Slug(stops[n].name, rt));
      assert WriteBusstops(files, stops, mapName, routeName, rt)[p] == BusstopText(stops[n], rt);
    } else {
      var q := stops[..n];
      assert q[k] == stops[k];
      WriteBusstopsAt(files, q, mapName, routeName, rt, k);
      var j :| k <= j < |q| && Slug(q[j].name, rt) == Slug(q[k].name, rt)
         && WriteBusstops(files, q, mapName, routeName, rt)[p] == BusstopText(q[j], rt);
      assert q[j] == stops[j];
    }
  }

  /** With pairwise different identifiers each stop adds one new file. */
  lemma {:induction false} WriteBusstopsCount(files: map<string, string>, stops: seq<Stop>, mapName: string, routeName: string, rt: Runtime)
    requires forall i, j :: 0 <= i < j < |stops| ==> Slug(stops[i].name, rt) != Slug(stops[j].name, rt)
    requires forall k :: 0 <= k < |stops| ==> BusstopPath(mapName, routeName, Slug(stops[k].name, rt)) !in files
    ensures |WriteBusstops(files, stops, mapName, routeName, rt).Keys| == |files.Keys| + |stops|
  {
    if |stops| > 0 {
      var n := |stops| - 1;
      var q := stops[..n];
      WriteBusstopsCount(files, q, mapName, routeName, rt);
      var p := BusstopPath(mapName, routeName, Slug(stops[n].name, rt));
      forall k | 0 <= k < |q|
        ensures p != BusstopPath(mapName, routeName, Slug(q[k].name, rt))
      {
        assert q[k] == stops[k];
        if p == BusstopPath(mapName, routeName, Slug(q[k].name, rt)) {
          BusstopPathInjective(mapName, routeName, Slug(stops[n].name, rt), Slug(q[k].name, rt));
        }
      }
      WriteBusstopsKeeps(files, q, mapName, routeName, rt, p);
      var w := WriteBusstops(files, q, mapName, routeName, rt);
      assert p !in w;
      assert w[p := BusstopText(stops[n], rt)].Keys == w.Keys + {p};
    }
  }

  // ---------------------------------------------------------------
  // The whole output

  /** The map file, the list and the entry points keep the contents they
      were written with: no bus-stop file lands on their paths. */
  lemma ConvertFixedContents(stops: seq<Stop>, mapName: string, routeName: string, originLat: real, originLon: real, rt: Runtime)
    ensures var files := ConvertFiles(stops, mapName, routeName, originLat, originLon, rt);
      && MapPath(mapName) in files && files[MapPath(mapName)] == MapText(mapName, routeName)
      && ListPath(mapName, routeName) in files && files[ListPath(mapName, routeName)] == EntrypointsList(stops, rt)
      && EntrypointsPath(mapName, routeName) in files
      && files[EntrypointsPath(mapName, routeName)] == EntrypointsText(stops, originLat, originLon, rt)
  {
    var base := FixedFiles(stops, mapName, routeName, originLat, originLon, rt);
    PathsDistinct(mapName, routeName, "");
    forall k | 0 <= k < |stops|
      ensures BusstopPath(mapName, routeName, Slug(stops[k].name, rt)) !in base.Keys
    {
      PathsDistinct(mapName, routeName, Slug(stops[k].name, rt));
    }
    WriteBusstopsKeeps(base, stops, mapName, routeName, rt, MapPath(mapName));
    WriteBusstopsKeeps(base, stops, mapName, routeName, rt, ListPath(mapName, routeName));
    WriteBusstopsKeeps(base, stops, mapName, routeName, rt, EntrypointsPath(mapName, routeName));
  }

  /** Three fixed files plus one file per stop, when no two stops share an
      identifier. */
  lemma ConvertFileCount(stops: seq<Stop>, mapName: string, routeName: string, originLat: real, originLon: real, rt: Runtime)
    requires forall i, j :: 0 <= i < j < |stops| ==> Slug(stops[i].name, rt) != Slug(stops[j].name, rt)
    ensures |ConvertFiles(stops, mapName, routeName, originLat, originLon, rt).Keys| == |stops| + 3
  {
    var base := FixedFiles(stops, mapName, routeName, originLat, originLon, rt);
    PathsDistinct(mapName, routeName, "");
    assert base.Keys == {MapPath(mapName), ListPath(mapName, routeName), EntrypointsPath(mapName, routeName)};
    assert |base.Keys| == 3;
    forall k | 0 <= k < |stops|
      ensures BusstopPath(mapName, routeName, Slug(stops[k].name, rt)) !in base
    {
      PathsDistinct(mapName, routeName, Slug(stops[k].name, rt));
    }
    WriteBusstopsCount(base, stops, mapName, routeName, rt);
  }

  /** Two stops with the same identifier share one bus-stop file, which
      holds the later stop's text ("Stop One" and "Stop-One" are such a pair,
      see `Naming.SlugCollides`). */
  lemma DuplicateIdentifierOverwrites(files: map<string, string>, a: Stop, b: Stop, mapName: string, routeName: string, rt: Runtime)
    requires Slug(a.name, rt) == Slug(b.name, rt)
    ensures var w := WriteBusstops(files, [a, b], mapName, routeName, rt);
      BusstopPath(mapName, routeName, Slug(a.name, rt)) in w
      && w[BusstopPath(mapName, routeName, Slug(a.name, rt))] == BusstopText(b, rt)
  {
    assert [a, b][..1] == [a];
  }

  /** The lines of the file at path p, as a consumer reads them back;
      no lines when nothing was written there. */
  function LinesOf(files: map<string, string>, p: string): seq<string> {
    if p in files then Split(files[p], '\n') else []
  }

  /** Stop k's line in entrypoints_list.txt is its identifier. */
  lemma ListConsistency(stops: seq<Stop>, mapName: string, routeName: string, originLat: real, originLon: real, rt: Runtime, k: nat)
    requires k < |stops| && Plausible(rt)
    ensures var lines := LinesOf(ConvertFiles(stops, mapName, routeName, originLat, originLon, rt), ListPath(mapName, routeName));
      |lines| == |stops| && lines[k] == Slug(stops[k].name, rt)
  {
    var files := ConvertFiles(stops, mapName, routeName, originLat, originLon, rt);
    ConvertFixedContents(stops, mapName, routeName, originLat, originLon, rt);
    EntrypointsListRoundTrip(stops, rt);
    assert LinesOf(files, ListPath(mapName, routeName)) == EntrypointsListLines(stops, rt);
  }

  lemma BlockHead(i: nat, stop: Stop, originLat: real, originLon: real, rt: Runtime)
    ensures EntrypointBlock(i, stop, originLat, originLon, rt)[0] == "[entrypoint_" + NatToString(i) + "]"
    ensures EntrypointBlock(i, stop, originLat, originLon, rt)[1] == "name=" + Slug(stop.name, rt)
  {
  }

  /** entrypoints.txt, read back, is exactly the blocks of the stops. */
  lemma EntrypointsFileLines(stops: seq<Stop>, mapName: string, routeName: string, originLat: real, originLon: real, rt: Runtime)
    requires |stops| > 0 && Plausible(rt)
    ensures LinesOf(ConvertFiles(stops, mapName, routeName, originLat, originLon, rt), EntrypointsPath(mapName, routeName))
         == EntrypointsLines(stops, originLat, originLon, rt)
  {
    ConvertFixedContents(stops, mapName, routeName, originLat, originLon, rt);
    EntrypointsTextRoundTrip(stops, originLat, originLon, rt);
  }

  /** Stop k's block in entrypoints.txt starts with its 1-based header and
      names it by its identifier. */
  lemma EntrypointsConsistency(stops: seq<Stop>, mapName: string, routeName: string, originLat: real, originLon: real, rt: Runtime, k: nat)
    requires k < |stops| && Plausible(rt)
    ensures var lines := LinesOf(ConvertFiles(stops, mapName, routeName, originLat, originLon, rt), EntrypointsPath(mapName, routeName));
      |lines| == 9 * |stops|
      && lines[9 * k] == "[entrypoint_" + NatToString(k + 1) + "]"
      && lines[9 * k + 1] == "name=" + Slug(stops[k].name, rt)
  {
    EntrypointsFileLines(stops, mapName, routeName, originLat, originLon, rt);
    EntrypointsHeadAt(stops, originLat, originLon, rt, k);
  }

  lemma EntrypointsHeadAt(stops: seq<Stop>, originLat: real, originLon: real, rt: Runtime, k: nat)
    requires k < |stops|
    ensures var all := EntrypointsLines(stops, originLat, originLon, rt);
      && all[9 * k] == "[entrypoint_" + NatToString(k + 1) + "]"
      && all[9 * k + 1] == "name=" + Slug(stops[k].name, rt)
  {
    var all := EntrypointsLines(stops, originLat, originLon, rt);
    var block := EntrypointBlock(k + 1, stops[k], originLat, originLon, rt);
    EntrypointsLinesAt(stops, originLat, originLon, rt, k, 0);
    EntrypointsLinesAt(stops, originLat, originLon, rt, k, 1);
    assert all[9 * k] == block[0] && all[9 * k + 1] == block[1];
    BlockHead(k + 1, stops[k], originLat, originLon, rt);
  }

  /** Stop k's identifier names a bus-stop file, whichever of the stops
      sharing it wrote the file last; its prefix line, third from the end,
      is that identifier. The file has 11 lines when the stops with that
      identifier have names without newlines, and more otherwise. */
  lemma BusstopConsistency(stops: seq<Stop>, mapName: string, routeName: string, originLat: real, originLon: real, rt: Runtime, k: nat)
    requires k < |stops| && Plausible(rt)
    ensures var id := Slug(stops[k].name, rt);
      var lines := LinesOf(ConvertFiles(stops, mapName, routeName, originLat, originLon, rt), BusstopPath(mapName, routeName, id));
      && |lines| >= 11
      && lines[|lines| - 3] == "prefix=" + id
      && ((forall j :: 0 <= j < |stops| && Slug(stops[j].name, rt) == id ==> '\n' !in stops[j].name) ==> |lines| == 11)
  {
    var id := Slug(stops[k].name, rt);
    var base := FixedFiles(stops, mapName, routeName, originLat, originLon, rt);
    WriteBusstopsAt(base, stops, mapName, routeName, rt, k);
    var files := ConvertFiles(stops, mapName, routeName, originLat, originLon, rt);
    var j :| k <= j < |stops| && Slug(stops[j].name, rt) == id
      && files[BusstopPath(mapName, routeName, id)] == BusstopText(stops[j], rt);
    BusstopTextLines(stops[j], rt);
    if '\n' !in stops[j].name {
      BusstopTextRoundTrip(stops[j], rt);
    }
  }

  /** The identifier of stop k is the same in every file that names the stop
      and in the geographic export, whatever the stops' names hold. */
  lemma CrossFileConsistency(stops: seq<Stop>, mapName: string, routeName: string, originLat: real, originLon: real, rt: Runtime, k: nat)
    requires k < |stops| && Plausible(rt)
    ensures var id := Slug(stops[k].name, rt);
      var files := ConvertFiles(stops, mapName, routeName, originLat, originLon, rt);
      var list := LinesOf(files, ListPath(mapName, routeName));
      var entries := LinesOf(files, EntrypointsPath(mapName, routeName));
      var stopFile := LinesOf(files, BusstopPath(mapName, routeName, id));
      && k < |list| && list[k] == id
      && 9 * k + 1 < |entries| && entries[9 * k + 1] == "name=" + id
      && 3 <= |stopFile| && stopFile[|stopFile| - 3] == "prefix=" + id
      && GeoStops(stops, originLat, originLon, rt)[k].internalName == id
  {
    ListConsistency(stops, mapName, routeName, originLat, originLon, rt, k);
    EntrypointsConsistency(stops, mapName, routeName, originLat, originLon, rt, k);
    BusstopConsistency(stops, mapName, routeName, originLat, originLon, rt, k);
  }

  /** Every stop stands on the ground: the posY line of each block is the
      rendering of 0.0. */
  lemma EntrypointsOnGround(stops: seq<Stop>, originLat: real, originLon: real, rt: Runtime, k: nat)
    requires k < |stops|
    ensures EntrypointsLines(stops, originLat, originLon, rt)[9 * k + 3] == "posY=" + rt.fixed6(0.0)
  {
    EntrypointsLinesAt(stops, originLat, originLon, rt, k, 3);
  }

  /** With the default origin, the first stop's block places it at (0, 0, 0). */
  lemma DefaultOriginAtFirstStop(stops: seq<Stop>, rt: Runtime)
    requires |stops| > 0
    ensures var o := OriginOf(stops, None, None);
      var lines := EntrypointsLines(stops, o.0, o.1, rt);
      lines[2] == "posX=" + rt.fixed6(0.0)
      && lines[3] == "posY=" + rt.fixed6(0.0)
      && lines[4] == "posZ=" + rt.fixed6(0.0)
  {
    var o := OriginOf(stops, None, None);
    OriginMapsToZero(stops[0].lat, stops[0].lon, rt);
    EntrypointsLinesAt(stops, o.0, o.1, rt, 0, 2);
    EntrypointsLinesAt(stops, o.0, o.1, rt, 0, 3);
    EntrypointsLinesAt(stops, o.0, o.1, rt, 0, 4);
  }
}
